/** Producer and verifier agree: what the exporter builds from an issued prefix, the cut verifier accepts. */
module ExportProofs {

  import opened Base
  import opened Names
  import opened Cut
  import opened Export
  import opened ExportPaths
  import opened ExportFiles
  import Archive
  import Catalog
  import Ledger

  /** JSON text is never empty, digests are hex, and `json.loads` inverts the printer. */
  ghost predicate Printing(t: Setting) {
    && HexSha(t.k.h) && t.cat.h == t.k.h && t.arc.h == t.k.h
    && (forall d :: t.k.loads(t.k.print_(d)) == Some(d) && t.k.print_(d) != [])
    && (forall r :: t.cat.print_(r) != []) && (forall r :: t.arc.print_(r) != [])
    && t.configPath != "" && t.configRaw != []
  }

  /** What an issued prefix says of one of its attempts. */
  ghost predicate Chained(t: Setting, disk: Disk, lives: seq<Catalog.Life>, n: nat) {
    && 1 <= n <= |lives| && lives[n - 1].begin.AttemptBegin? && lives[n - 1].end.Some? && lives[n - 1].end.value.AttemptEnd?
    && (!Catalog.IsRefused(lives[n - 1]) ==>
          && 2 <= lives[n - 1].end.value.records <= 100000000
          && RequestFits(t.arc, n, lives[n - 1], Raws(RequestRecords(t.k.h, disk, n, lives[n - 1]))))
  }

  /** What an issued prefix says of the catalog. */
  ghost predicate Rooted(t: Setting, p: Prefix, catalog: seq<Bytes>) {
    && catalog != [] && |catalog| == p.count <= 100000000
    && Catalog.Scan(t.cat, catalog).Some? && Catalog.Scan(t.cat, catalog).value.instance == Some(p.instance)
    && p.head == LinkOf(t.k.h, catalog[|catalog| - 1])
  }

  ghost predicate Ready(t: Setting, disk: Disk, p: Prefix, lives: seq<Catalog.Life>) {
    var catalog := Raws(Records(disk, "c", p.count));
    && p.session != "" && Rooted(t, p, catalog)
    && lives == Catalog.Lives(t.cat, catalog) && |lives| <= 100000000
    && p.attempts == Own(lives, p.session)
    && p.originals == Records(disk, "c", p.count) + RequestOriginals(t.k.h, disk, lives, p.attempts)
    && forall i | 0 <= i < |p.attempts| :: Chained(t, disk, lives, p.attempts[i])
  }

  // ----- An issued prefix is ready -----

  lemma CatalogIsShort(c: Catalog.Codec, raws: seq<Bytes>)
    requires Catalog.Scan(c, raws).Some?
    ensures |raws| <= 100000000 && |Catalog.Lives(c, raws)| <= |raws|
  {
    hide Catalog.Scan;
    Catalog.LastRecord(c, raws);
    Catalog.ScanReflects(c, raws);
  }

  /** The prefix compares heads by size and digest; the catalog verifier has already pinned the path. */
  lemma ReadBackFits(arc: Archive.Codec, n: nat, l: Catalog.Life, e: Catalog.Entry, raws: seq<Bytes>)
    requires Catalog.LifeFits(arc.h, n, l, e) && !Catalog.IsRefused(l)
    requires ReadsBack(arc, n, l, raws) && |raws| == l.end.value.records
    ensures RequestFits(arc, n, l, raws) && 2 <= |raws| <= 100000000
  {
    hide Archive.Scan, Directory, RecordPath;
    Archive.ScanMeans(arc, raws);
  }

  lemma IssuedIsReady(w: Ledger.World, t: Setting, s: Ledger.Book, disk: Disk, session: string)
    requires t.cat == w.cat && t.arc == w.arc && t.k.h == w.cat.h == w.arc.h
    requires TakePrefix(w, s, disk, session).Some?
    ensures Ready(t, disk, TakePrefix(w, s, disk, session).value, StoredLives(w, s, disk))
  {
    hide Catalog.Scan, Own, RequestOriginals, RequestFits, ReadsBack, RequestRecords, Readable, Settled, Catalog.Lives,
         SameAttempts, Ledger.Available, Chained;
    var p, lives := TakePrefix(w, s, disk, session).value, StoredLives(w, s, disk);
    var catalog := Raws(Records(disk, "c", s.count));
    CatalogIsShort(t.cat, catalog);
    Catalog.LastRecord(t.cat, catalog);
    forall i | 0 <= i < |p.attempts| ensures Chained(t, disk, lives, p.attempts[i]) {
      SettledChain(w, t, s, disk, catalog, lives, p.attempts[i]);
    }
  }

  /** A prefix is issued only by an available ledger, of exactly its attempts of the session, all ended. */
  lemma IssuedIsEnded(w: Ledger.World, s: Ledger.Book, disk: Disk, session: string, n: nat)
    requires TakePrefix(w, s, disk, session).Some?
    ensures Ledger.Available(s) && TakePrefix(w, s, disk, session).value.session == session != ""
    ensures n in TakePrefix(w, s, disk, session).value.attempts <==> Ledger.Owned(s, n) && Ledger.At(s, n).key.session == session
    ensures n in TakePrefix(w, s, disk, session).value.attempts ==> Ledger.At(s, n).phase == Ledger.Ended
  {
    hide CatalogRead, Own, RequestOriginals, Readable, ReadsBack;
    var own := Own(StoredLives(w, s, disk), session);
    if n in own {
      var i :| 0 <= i < |own| && own[i] == n;
      assert Settled(w, s, disk, StoredLives(w, s, disk), own[i]);
    }
    if Ledger.Owned(s, n) && Ledger.At(s, n).key.session == session { assert s.attempts[n - 1].key.session == session; }
  }

  /** The original is a stored file whose identity names its own descriptor. */
  ghost predicate IsStored(h: Hashing, disk: Disk, o: Original) {
    o.path in disk && o.file == disk[o.path] && h.sha(o.file.sd) == o.file.identity.acl
  }

  lemma ReadableStored(h: Hashing, disk: Disk, directory: string, n: nat, limit: nat)
    requires Readable(h, disk, directory, n, limit)
    ensures forall o | o in Records(disk, directory, n) :: IsStored(h, disk, o)
  {
    forall i | 0 <= i < n ensures IsStored(h, disk, Records(disk, directory, n)[i]) {
      assert ReadableAt(h, disk, RecordPath(directory, i), limit);
    }
  }

  lemma SettledStored(w: Ledger.World, s: Ledger.Book, disk: Disk, lives: seq<Catalog.Life>, n: nat)
    requires Settled(w, s, disk, lives, n)
    ensures forall o | o in OriginalsFor(w.cat.h, disk, lives, n) :: IsStored(w.cat.h, disk, o)
  {
    hide IsStored, Readable, ReadsBack, Directory;
    var l := lives[n - 1];
    if !Catalog.IsRefused(l) {
      ReadableStored(w.cat.h, disk, Directory(w.cat.h, n, l.begin.key), l.end.value.records, w.arc.maxRecordBytes);
    }
  }

  lemma {:induction false} RequestsStored(w: Ledger.World, s: Ledger.Book, disk: Disk, lives: seq<Catalog.Life>, own: seq<nat>)
    requires forall i | 0 <= i < |own| :: Settled(w, s, disk, lives, own[i])
    ensures forall o | o in RequestOriginals(w.cat.h, disk, lives, own) :: IsStored(w.cat.h, disk, o)
  {
    hide IsStored, Settled, OriginalsFor;
    if own != [] {
      RequestsStored(w, s, disk, lives, own[..|own| - 1]);
      SettledStored(w, s, disk, lives, own[|own| - 1]);
    }
  }

  /** Every original of an issued prefix is the stored file of its path, with its own descriptor. */
  lemma IssuedIsStored(w: Ledger.World, s: Ledger.Book, disk: Disk, session: string)
    requires TakePrefix(w, s, disk, session).Some?
    ensures forall o | o in TakePrefix(w, s, disk, session).value.originals :: IsStored(w.cat.h, disk, o)
  {
    hide IsStored, Settled, Readable, Own, RequestOriginals;
    ReadableStored(w.cat.h, disk, "c", s.count, w.cat.maxRecordBytes);
    RequestsStored(w, s, disk, StoredLives(w, s, disk), Own(StoredLives(w, s, disk), session));
  }

  lemma SettledChain(w: Ledger.World, t: Setting, s: Ledger.Book, disk: Disk, catalog: seq<Bytes>,
                     lives: seq<Catalog.Life>, n: nat)
    requires t.cat == w.cat && t.arc == w.arc && t.k.h == w.cat.h == w.arc.h && Settled(w, s, disk, lives, n)
    requires Catalog.Scan(t.cat, catalog).Some? && lives == Catalog.Lives(t.cat, catalog)
    ensures Chained(t, disk, lives, n)
  {
    hide RequestFits, ReadsBack, Catalog.Scan, Catalog.Lives, Readable, Catalog.LifeFits, Directory;
    Catalog.EntryReflects(t.cat, catalog, n);
    if !Catalog.IsRefused(lives[n - 1]) {
      ReadBackFits(t.arc, n, lives[n - 1], Catalog.Scan(t.cat, catalog).value.attempts[n - 1],
                   Raws(RequestRecords(t.k.h, disk, n, lives[n - 1])));
    }
  }

  // ----- Attempts and their rows -----

  lemma {:induction false} OwnIncreases(lives: seq<Catalog.Life>, session: string)
    ensures Increasing(Own(lives, session))
    ensures forall i | 0 <= i < |Own(lives, session)| :: Own(lives, session)[i] <= |lives|
  {
    if lives != [] { OwnIncreases(lives[..|lives| - 1], session); }
  }

  lemma ReadyDistinct(t: Setting, disk: Disk, p: Prefix, lives: seq<Catalog.Life>)
    requires HexSha(t.k.h) && Ready(t, disk, p, lives)
    ensures DistinctOriginals(p.originals) && Increasing(p.attempts)
  {
    hide Catalog.Scan, RequestOriginals, RequestFits, Chained, Catalog.Lives;
    OwnIncreases(lives, p.session);
    OriginalsDistinct(t.k.h, disk, p.count, lives, p.attempts);
  }

  ghost predicate AllChained(t: Setting, disk: Disk, lives: seq<Catalog.Life>, own: seq<nat>) {
    forall i | 0 <= i < |own| :: Chained(t, disk, lives, own[i])
  }

  /** Every row of `own` lists exactly the copies of that attempt's originals. */
  ghost predicate Recovered(t: Setting, disk: Disk, os: seq<Original>, lives: seq<Catalog.Life>, own: seq<nat>) {
    forall i | 0 <= i < |own| && Admitted(lives, own[i]) ::
      RecordsOf(t.k.h, os, HomeOf(t.k.h, lives, own[i]))
      == Copies(SourceRefs(t.k.h, RequestRecords(t.k.h, disk, own[i], lives[own[i] - 1])))
  }

  /** What holds of all attempts holds of all but the last. */
  lemma FewerAttempts(t: Setting, disk: Disk, os: seq<Original>, lives: seq<Catalog.Life>, own: seq<nat>)
    requires AllChained(t, disk, lives, own) && Recovered(t, disk, os, lives, own) && own != []
    ensures AllChained(t, disk, lives, own[..|own| - 1]) && Recovered(t, disk, os, lives, own[..|own| - 1])
  {
    hide Chained, RecordsOf, RequestRecords, HomeOf;
  }

  lemma ReadyRecovered(t: Setting, disk: Disk, p: Prefix, lives: seq<Catalog.Life>)
    requires HexSha(t.k.h) && Ready(t, disk, p, lives)
    ensures Recovered(t, disk, p.originals, lives, p.attempts)
  {
    hide Catalog.Scan, RequestOriginals, RequestFits, Catalog.Lives, RecordsOf, RequestRecords, HomeOf;
    OwnIncreases(lives, p.session);
    forall i | 0 <= i < |p.attempts| && Admitted(lives, p.attempts[i])
      ensures RecordsOf(t.k.h, p.originals, HomeOf(t.k.h, lives, p.attempts[i]))
              == Copies(SourceRefs(t.k.h, RequestRecords(t.k.h, disk, p.attempts[i], lives[p.attempts[i] - 1]))) {
      assert Chained(t, disk, lives, p.attempts[i]);
      ChainRecovered(t.k.h, disk, p.count, lives, p.attempts, p.attempts[i]);
    }
  }

  lemma CopiesConcat(h: Hashing, a: seq<Original>, b: seq<Original>)
    ensures Copies(SourceRefs(h, a + b)) == Copies(SourceRefs(h, a)) + Copies(SourceRefs(h, b))
  {
  }

  lemma {:induction false} RecordsConcat(a: seq<RequestRow>, b: seq<RequestRow>)
    ensures AllRecords(a + b) == AllRecords(a) + AllRecords(b)
  {
    if b == [] {
      assert a + b == a;
    } else {
      var m := |b| - 1;
      assert (a + b)[..|a + b| - 1] == a + b[..m];
      RecordsConcat(a, b[..m]);
    }
  }

  lemma NoRecords()
    ensures AllRecords([]) == []
  {
  }

  lemma OneRowRecords(row: RequestRow)
    ensures AllRecords([row]) == row.records
  {
    assert [row][..0] == [];
  }

  /** The row of one attempt lists the copies of its originals. */
  lemma RowForRecords(t: Setting, disk: Disk, os: seq<Original>, lives: seq<Catalog.Life>, own: seq<nat>, m: nat)
    requires AllChained(t, disk, lives, own) && Recovered(t, disk, os, lives, own) && m < |own|
    ensures AllRecords(RowFor(t.k.h, os, lives, own[m]))
            == Copies(SourceRefs(t.k.h, OriginalsFor(t.k.h, disk, lives, own[m])))
  {
    hide RecordsOf, RequestFits, RequestRecords, AllRecords;
    var n := own[m];
    assert Chained(t, disk, lives, n);
    if Catalog.IsRefused(lives[n - 1]) {
      NoRecords();
      NoCopies(t.k.h);
    } else {
      assert Admitted(lives, n);
      OneRowRecords(RequestRow(n, RecordsOf(t.k.h, os, HomeOf(t.k.h, lives, n))));
    }
  }

  /** The projection's request records are the copies of the request originals, in the same order. */
  lemma {:induction false} RowsRecords(t: Setting, disk: Disk, os: seq<Original>, lives: seq<Catalog.Life>,
                                       own: seq<nat>)
    requires AllChained(t, disk, lives, own) && Recovered(t, disk, os, lives, own)
    ensures AllRecords(RequestRows(t.k.h, os, lives, own))
            == Copies(SourceRefs(t.k.h, RequestOriginals(t.k.h, disk, lives, own)))
  {
    hide RowFor, OriginalsFor, AllChained, Recovered, Copies, SourceRefs;
    if own == [] {
      NoCopies(t.k.h);
    } else {
      var m := |own| - 1;
      FewerAttempts(t, disk, os, lives, own);
      RowsRecords(t, disk, os, lives, own[..m]);
      RowForRecords(t, disk, os, lives, own, m);
      RecordsConcat(RequestRows(t.k.h, os, lives, own[..m]), RowFor(t.k.h, os, lives, own[m]));
      CopiesConcat(t.k.h, RequestOriginals(t.k.h, disk, lives, own[..m]), OriginalsFor(t.k.h, disk, lives, own[m]));
    }
  }

  lemma NoCopies(h: Hashing)
    ensures Copies(SourceRefs(h, [])) == []
  {
  }

  ghost predicate HoldsChain(h: Hashing, disk: Disk, files: Files, n: nat, l: Catalog.Life) {
    forall i | 0 <= i < |RequestRecords(h, disk, n, l)| :: HoldsOriginal(files, RequestRecords(h, disk, n, l)[i])
  }

  lemma StoredRow(t: Setting, disk: Disk, lives: seq<Catalog.Life>, files: Files, n: nat)
    requires t.arc.h == t.k.h && Chained(t, disk, lives, n) && Admitted(lives, n)
    requires HoldsChain(t.k.h, disk, files, n, lives[n - 1])
    ensures RequestStored(t.arc.h, files, n, lives[n - 1])
    ensures RequestRefs(t.arc.h, files, n, lives[n - 1]) == Copies(SourceRefs(t.k.h, RequestRecords(t.k.h, disk, n, lives[n - 1])))
    ensures RequestFits(t.arc, n, lives[n - 1], Contents(files, RequestRefs(t.arc.h, files, n, lives[n - 1])))
  {
    hide RequestFits, Directory, RecordPath;
    var h, l := t.k.h, lives[n - 1];
    var chain := RequestRecords(h, disk, n, l);
    var d := Directory(h, n, l.begin.key);
    forall i | 0 <= i < l.end.value.records
      ensures CopyOf(RecordPath(d, i)) in files && files[CopyOf(RecordPath(d, i))] == chain[i].file.raw {
      assert HoldsOriginal(files, chain[i]);
    }
    assert Contents(files, RequestRefs(h, files, n, l)) == Raws(chain);
  }

  ghost predicate ChainsHeld(t: Setting, disk: Disk, lives: seq<Catalog.Life>, own: seq<nat>, files: Files) {
    forall i | 0 <= i < |own| && Admitted(lives, own[i]) :: HoldsChain(t.k.h, disk, files, own[i], lives[own[i] - 1])
  }

  lemma FewerChains(t: Setting, disk: Disk, lives: seq<Catalog.Life>, own: seq<nat>, files: Files)
    requires ChainsHeld(t, disk, lives, own, files) && own != []
    ensures ChainsHeld(t, disk, lives, own[..|own| - 1], files)
  {
    hide HoldsChain;
  }

  /** The last attempt's row is the one the verifier expects after the rows before it. */
  lemma ExpectedStep(t: Setting, disk: Disk, os: seq<Original>, lives: seq<Catalog.Life>, own: seq<nat>, files: Files,
                     rows: seq<RequestRow>)
    requires t.arc.h == t.k.h && AllChained(t, disk, lives, own) && Recovered(t, disk, os, lives, own)
    requires ChainsHeld(t, disk, lives, own, files)
    requires own != [] && Expected(t.arc, files, lives, own[..|own| - 1]) == Some(rows)
    ensures Expected(t.arc, files, lives, own) == Some(rows + RowFor(t.k.h, os, lives, own[|own| - 1]))
  {
    hide RecordsOf, RequestFits, Directory, RequestRecords, HoldsChain, RequestStored, RequestRefs, Copies, SourceRefs;
    var n := own[|own| - 1];
    assert Chained(t, disk, lives, n);
    if !Catalog.IsRefused(lives[n - 1]) {
      assert Admitted(lives, n);
      StoredRow(t, disk, lives, files, n);
    } else {
      assert rows + [] == rows;
    }
  }

  /** The verifier re-derives the projection's rows from the files. */
  lemma {:induction false} RowsExpected(t: Setting, disk: Disk, os: seq<Original>, lives: seq<Catalog.Life>,
                                        own: seq<nat>, files: Files)
    requires t.arc.h == t.k.h && AllChained(t, disk, lives, own) && Recovered(t, disk, os, lives, own)
    requires ChainsHeld(t, disk, lives, own, files)
    ensures Expected(t.arc, files, lives, own) == Some(RequestRows(t.k.h, os, lives, own))
  {
    hide RowFor, AllChained, Recovered, ChainsHeld, RequestFits, RequestStored, RequestRefs;
    if own != [] {
      FewerAttempts(t, disk, os, lives, own);
      FewerChains(t, disk, lives, own, files);
      RowsExpected(t, disk, os, lives, own[..|own| - 1], files);
      ExpectedStep(t, disk, os, lives, own, files, RequestRows(t.k.h, os, lives, own[..|own| - 1]));
    }
  }
}
