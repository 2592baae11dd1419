/** The names of an issued prefix: which original lies where, and why sorting and filtering recovers each chain. */
module ExportPaths {

  import opened Base
  import opened Names
  import opened Cut
  import opened Export
  import Catalog

  /** Digests are sixty-four lower-case hex digits. */
  ghost predicate HexSha(h: Hashing) {
    forall raw :: IsSha(h.sha(raw))
  }

  ghost predicate DistinctOriginals(os: seq<Original>) {
    forall i, j | 0 <= i < j < |os| :: os[i].path != os[j].path
  }

  /** Attempt `n` is one of the catalog's, was admitted and ended. */
  ghost predicate Admitted(lives: seq<Catalog.Life>, n: nat) {
    && 1 <= n <= |lives| && lives[n - 1].begin.AttemptBegin? && !Catalog.IsRefused(lives[n - 1])
    && lives[n - 1].end.Some? && lives[n - 1].end.value.AttemptEnd?
  }

  function HomeOf(h: Hashing, lives: seq<Catalog.Life>, n: nat): string
    requires 1 <= n <= |lives| && lives[n - 1].begin.AttemptBegin?
  {
    Directory(h, n, lives[n - 1].begin.key)
  }

  // ----- Directories -----

  lemma DirectoryShape(h: Hashing, n: nat, key: Key)
    requires HexSha(h) && n <= 999999999999
    ensures IsDirectory(Directory(h, n, key)) && Directory(h, n, key)[1..13] == Pad(12, n)
  {
    assert Power10(12) == 1000000000000;
    PadDenotes(12, n);
    var d, digest := Directory(h, n, key), h.sha(h.keyBytes(key));
    assert IsSha(digest);
    assert d[14..] == digest;
  }

  lemma DirectoriesDiffer(h: Hashing, n: nat, m: nat, a: Key, b: Key)
    requires HexSha(h) && n <= 999999999999 && m <= 999999999999 && n != m
    ensures Directory(h, n, a) != Directory(h, m, b)
  {
    DirectoryShape(h, n, a);
    DirectoryShape(h, m, b);
    PadDenotes(12, n);
    PadDenotes(12, m);
  }

  /** A path shows the directory it lies in. */
  lemma PathShowsDirectory(d: string, i: nat)
    ensures StartsWith(RecordPath(d, i), d + "/")
    ensures forall e | |e| == |d| && StartsWith(RecordPath(d, i), e + "/") :: e == d
  {
    var path := RecordPath(d, i);
    assert path[..|d| + 1] == d + "/";
    forall e | |e| == |d| && StartsWith(path, e + "/") ensures e == d {
      assert e == (e + "/")[..|e|] == path[..|d| + 1][..|d|] == d;
    }
  }

  lemma ApartFromCatalog(d: string, i: nat, j: nat)
    requires IsDirectory(d)
    ensures !StartsWith(RecordPath("c", i), d + "/") && RecordPath("c", i) != RecordPath(d, j)
  {
    assert RecordPath("c", i)[0] == 'c' && RecordPath(d, j)[0] == 'r';
    assert (d + "/")[0] == 'r';
  }

  // ----- Where the originals come from -----

  lemma {:induction false} FromAttempt(h: Hashing, disk: Disk, lives: seq<Catalog.Life>, own: seq<nat>, o: Original)
    requires o in RequestOriginals(h, disk, lives, own)
    ensures exists n :: n in own && Admitted(lives, n) && o in RequestRecords(h, disk, n, lives[n - 1])
  {
    var m := |own| - 1;
    var n := own[m];
    if o in RequestOriginals(h, disk, lives, own[..m]) {
      FromAttempt(h, disk, lives, own[..m], o);
    } else {
      assert n in own && Admitted(lives, n) && o in RequestRecords(h, disk, n, lives[n - 1]);
    }
  }

  lemma {:induction false} HoldsAttempt(h: Hashing, disk: Disk, lives: seq<Catalog.Life>, own: seq<nat>, n: nat,
                                        o: Original)
    requires n in own && Admitted(lives, n) && o in RequestRecords(h, disk, n, lives[n - 1])
    ensures o in RequestOriginals(h, disk, lives, own)
  {
    hide RequestRecords;
    var m := |own| - 1;
    assert own == own[..m] + [own[m]];
    if n == own[m] {
      assert o in OriginalsFor(h, disk, lives, n);
    } else {
      HoldsAttempt(h, disk, lives, own[..m], n, o);
    }
  }

  lemma DistinctConcat(a: seq<Original>, b: seq<Original>)
    requires DistinctOriginals(a) && DistinctOriginals(b)
    requires forall x, y | x in a && y in b :: x.path != y.path
    ensures DistinctOriginals(a + b)
  {
    var c := a + b;
    forall i, j | 0 <= i < j < |c| ensures c[i].path != c[j].path {
      if i < |a| <= j { assert c[i] in a && c[j] in b; }
    }
  }

  lemma RecordsDistinct(disk: Disk, d: string, n: nat)
    ensures DistinctOriginals(Records(disk, d, n))
  {
    forall i, j | 0 <= i < j < n ensures RecordPath(d, i) != RecordPath(d, j) {
      if RecordPath(d, i) == RecordPath(d, j) { RecordPathInjective(d, i, j); }
    }
  }

  lemma DifferentAttempts(h: Hashing, disk: Disk, lives: seq<Catalog.Life>, n: nat, m: nat, x: Original, y: Original)
    requires HexSha(h) && |lives| <= 999999999999 && n != m && Admitted(lives, n) && Admitted(lives, m)
    requires x in RequestRecords(h, disk, n, lives[n - 1]) && y in RequestRecords(h, disk, m, lives[m - 1])
    ensures x.path != y.path
  {
    var d, e := HomeOf(h, lives, n), HomeOf(h, lives, m);
    DirectoryShape(h, n, lives[n - 1].begin.key);
    DirectoryShape(h, m, lives[m - 1].begin.key);
    DirectoriesDiffer(h, n, m, lives[n - 1].begin.key, lives[m - 1].begin.key);
    var i :| 0 <= i < lives[n - 1].end.value.records && x.path == RecordPath(d, i);
    var j :| 0 <= j < lives[m - 1].end.value.records && y.path == RecordPath(e, j);
    PathShowsDirectory(d, i);
    PathShowsDirectory(e, j);
  }

  lemma {:induction false} RequestsDistinct(h: Hashing, disk: Disk, lives: seq<Catalog.Life>, own: seq<nat>)
    requires HexSha(h) && |lives| <= 999999999999 && Increasing(own)
    ensures DistinctOriginals(RequestOriginals(h, disk, lives, own))
  {
    if own != [] {
      var m := |own| - 1;
      var n, before := own[m], RequestOriginals(h, disk, lives, own[..m]);
      RequestsDistinct(h, disk, lives, own[..m]);
      if Admitted(lives, n) {
        var last := RequestRecords(h, disk, n, lives[n - 1]);
        RecordsDistinct(disk, HomeOf(h, lives, n), lives[n - 1].end.value.records);
        forall x, y | x in before && y in last ensures x.path != y.path {
          FromAttempt(h, disk, lives, own[..m], x);
          var k :| k in own[..m] && Admitted(lives, k) && x in RequestRecords(h, disk, k, lives[k - 1]);
          DifferentAttempts(h, disk, lives, k, n, x, y);
        }
        DistinctConcat(before, last);
      }
    }
  }

  /** No original is listed twice, so the duplicate check of the exporter never fires. */
  lemma OriginalsDistinct(h: Hashing, disk: Disk, count: nat, lives: seq<Catalog.Life>, own: seq<nat>)
    requires HexSha(h) && |lives| <= 999999999999 && Increasing(own)
    ensures DistinctOriginals(Records(disk, "c", count) + RequestOriginals(h, disk, lives, own))
  {
    var a, b := Records(disk, "c", count), RequestOriginals(h, disk, lives, own);
    RecordsDistinct(disk, "c", count);
    RequestsDistinct(h, disk, lives, own);
    forall x, y | x in a && y in b ensures x.path != y.path {
      FromAttempt(h, disk, lives, own, y);
      var n :| n in own && Admitted(lives, n) && y in RequestRecords(h, disk, n, lives[n - 1]);
      DirectoryShape(h, n, lives[n - 1].begin.key);
      var i :| 0 <= i < count && x.path == RecordPath("c", i);
      var j :| 0 <= j < lives[n - 1].end.value.records && y.path == RecordPath(HomeOf(h, lives, n), j);
      ApartFromCatalog(HomeOf(h, lives, n), i, j);
    }
    DistinctConcat(a, b);
  }

  // ----- Sorting and filtering -----

  lemma {:induction false} UnderElements(refs: seq<Ref>, d: string, r: Ref)
    ensures r in Under(refs, d) <==> r in refs && StartsWith(r.path, d + "/")
  {
    if refs != [] {
      var m := |refs| - 1;
      UnderElements(refs[..m], d, r);
      assert refs == refs[..m] + [refs[m]];
    }
  }

  lemma {:induction false} UnderAscends(refs: seq<Ref>, d: string)
    requires Ascending(Paths(refs))
    ensures Ascending(Paths(Under(refs, d)))
  {
    if refs != [] {
      var m := |refs| - 1;
      var before, r := Under(refs[..m], d), refs[m];
      assert forall i | 0 <= i < m :: Paths(refs[..m])[i] == Paths(refs)[i];
      UnderAscends(refs[..m], d);
      forall i | 0 <= i < |before| ensures Less(before[i].path, r.path) {
        UnderElements(refs[..m], d, before[i]);
        var k :| 0 <= k < m && refs[k] == before[i];
        assert Less(Paths(refs)[k], Paths(refs)[m]);
      }
      var all := Under(refs, d);
      forall i, j | 0 <= i < j < |all| ensures Less(Paths(all)[i], Paths(all)[j]) {
        if j < |before| { assert Less(Paths(before)[i], Paths(before)[j]); }
      }
    }
  }

  lemma RecordsAscend(h: Hashing, disk: Disk, d: string, n: nat)
    requires n <= 100000000
    ensures Ascending(Paths(SourceRefs(h, Records(disk, d, n))))
  {
    forall i, j | 0 <= i < j < n ensures Less(RecordPath(d, i), RecordPath(d, j)) {
      RecordPathsOrdered(d, i, j);
    }
  }

  /** Sorting all originals by name and keeping one directory gives that request's records in numeric order. */
  lemma ChainRecovered(h: Hashing, disk: Disk, count: nat, lives: seq<Catalog.Life>, own: seq<nat>, n: nat)
    requires HexSha(h) && |lives| <= 999999999999 && Increasing(own)
    requires n in own && Admitted(lives, n) && lives[n - 1].end.value.records <= 100000000
    ensures var os := Records(disk, "c", count) + RequestOriginals(h, disk, lives, own);
            RecordsOf(h, os, HomeOf(h, lives, n)) == Copies(SourceRefs(h, RequestRecords(h, disk, n, lives[n - 1])))
  {
    hide Directory, RecordPath, RequestOriginals, SortRefs, Under, IsSha, HexSha, RequestRecords;
    var os := Records(disk, "c", count) + RequestOriginals(h, disk, lives, own);
    var d, refs := HomeOf(h, lives, n), SourceRefs(h, os);
    var chain := RequestRecords(h, disk, n, lives[n - 1]);
    OriginalsDistinct(h, disk, count, lives, own);
    SortRefsSorts(refs);
    UnderAscends(SortRefs(refs), d);
    ChainAscends(h, disk, lives, n);
    forall r ensures r in Under(SortRefs(refs), d) <==> r in SourceRefs(h, chain) {
      UnderElements(SortRefs(refs), d, r);
      SortElements(refs, r);
      if r in SourceRefs(h, chain) { InChain(h, disk, count, lives, own, n, r); }
      if r in refs && StartsWith(r.path, d + "/") {
        var k :| 0 <= k < |os| && refs[k] == r;
        OnlyThisChain(h, disk, count, lives, own, n, os[k]);
        var i :| 0 <= i < |chain| && chain[i] == os[k];
        assert SourceRefs(h, chain)[i] == r;
      }
    }
    AscendingUnique(Under(SortRefs(refs), d), SourceRefs(h, chain));
  }

  lemma ChainAscends(h: Hashing, disk: Disk, lives: seq<Catalog.Life>, n: nat)
    requires Admitted(lives, n) && lives[n - 1].end.value.records <= 100000000
    ensures Ascending(Paths(SourceRefs(h, RequestRecords(h, disk, n, lives[n - 1]))))
  {
    RecordsAscend(h, disk, HomeOf(h, lives, n), lives[n - 1].end.value.records);
  }

  lemma InChain(h: Hashing, disk: Disk, count: nat, lives: seq<Catalog.Life>, own: seq<nat>, n: nat, r: Ref)
    requires n in own && Admitted(lives, n)
    requires r in SourceRefs(h, RequestRecords(h, disk, n, lives[n - 1]))
    ensures r in SourceRefs(h, Records(disk, "c", count) + RequestOriginals(h, disk, lives, own))
    ensures StartsWith(r.path, HomeOf(h, lives, n) + "/")
  {
    hide Directory, RequestOriginals;
    var os := Records(disk, "c", count) + RequestOriginals(h, disk, lives, own);
    var chain := RequestRecords(h, disk, n, lives[n - 1]);
    var i :| 0 <= i < |chain| && SourceRefs(h, chain)[i] == r;
    HoldsAttempt(h, disk, lives, own, n, chain[i]);
    assert chain[i] in os;
    var k :| 0 <= k < |os| && os[k] == chain[i];
    assert SourceRefs(h, os)[k] == r;
    PathShowsDirectory(HomeOf(h, lives, n), i);
  }

  lemma OnlyThisChain(h: Hashing, disk: Disk, count: nat, lives: seq<Catalog.Life>, own: seq<nat>, n: nat, o: Original)
    requires HexSha(h) && |lives| <= 999999999999 && Admitted(lives, n)
    requires o in Records(disk, "c", count) || o in RequestOriginals(h, disk, lives, own)
    requires StartsWith(o.path, HomeOf(h, lives, n) + "/")
    ensures o in RequestRecords(h, disk, n, lives[n - 1])
  {
    hide Directory, RecordPath, RequestOriginals, IsSha, HexSha;
    var d := HomeOf(h, lives, n);
    DirectoryShape(h, n, lives[n - 1].begin.key);
    if o in Records(disk, "c", count) {
      var i :| 0 <= i < count && o.path == RecordPath("c", i);
      ApartFromCatalog(d, i, 0);
    } else {
      FromAttempt(h, disk, lives, own, o);
      var m :| m in own && Admitted(lives, m) && o in RequestRecords(h, disk, m, lives[m - 1]);
      var e := HomeOf(h, lives, m);
      DirectoryShape(h, m, lives[m - 1].begin.key);
      var j :| 0 <= j < lives[m - 1].end.value.records && o.path == RecordPath(e, j);
      PathShowsDirectory(e, j);
      if n != m { DirectoriesDiffer(h, n, m, lives[n - 1].begin.key, lives[m - 1].begin.key); }
    }
  }
}
