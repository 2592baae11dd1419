/** The exporter's dictionary of copies and descriptors: what each name holds, and its sorted listing. */
module ExportFiles {

  import opened Base
  import opened Names
  import opened Cut
  import opened Export
  import opened ExportPaths

  /** Two sources carry different descriptors of one digest. */
  ghost predicate DescriptorsCollide(h: Hashing, os: seq<Original>) {
    exists i, j | 0 <= i < |os| && 0 <= j < |os| ::
      os[i].file.sd != os[j].file.sd && h.sha(os[i].file.sd) == h.sha(os[j].file.sd)
  }

  /** Originals named apart, and one descriptor per digest. */
  ghost predicate Consistent(os: seq<Original>) {
    && DistinctOriginals(os)
    && forall i, j | 0 <= i < |os| && 0 <= j < |os| ::
         os[i].file.identity.acl == os[j].file.identity.acl ==> os[i].file.sd == os[j].file.sd
  }

  lemma NamesApart(a: string, b: string)
    ensures CopyOf(a) != SdPath(b)
    ensures CopyOf(a) !in {"source-manifest.json", "lifecycle.json", "attempts.json", "cut.json", "export.json"}
    ensures SdPath(b) !in {"source-manifest.json", "lifecycle.json", "attempts.json", "cut.json", "export.json"}
    ensures CopyOf(a) == CopyOf(b) ==> a == b
    ensures SdPath(a) == SdPath(b) ==> a == b
  {
    assert CopyOf(a)[0] == 'o' && SdPath(b)[0] == 's' && SdPath(b)[1] == 'd';
    assert CopyOf(a)[10..] == a && CopyOf(b)[10..] == b;
    assert SdPath(a)[3..|SdPath(a)| - 4] == a && SdPath(b)[3..|SdPath(b)| - 4] == b;
  }

  ghost predicate HoldsOriginal(files: Files, o: Original) {
    && CopyOf(o.path) in files && files[CopyOf(o.path)] == o.file.raw
    && SdPath(o.file.identity.acl) in files && files[SdPath(o.file.identity.acl)] == o.file.sd
  }

  ghost predicate NamesOriginal(os: seq<Original>, name: string) {
    exists i | 0 <= i < |os| :: name == CopyOf(os[i].path) || name == SdPath(os[i].file.identity.acl)
  }

  lemma {:induction false} CopiedHolds(os: seq<Original>, i: nat)
    requires Consistent(os) && i < |os|
    ensures HoldsOriginal(Copied(os), os[i])
  {
    hide CopyOf, SdPath;
    var m := |os| - 1;
    NamesApart(os[i].path, os[m].file.identity.acl);
    NamesApart(os[m].path, os[i].file.identity.acl);
    NamesApart(os[i].path, os[m].path);
    NamesApart(os[i].file.identity.acl, os[m].file.identity.acl);
    if i < m { CopiedHolds(os[..m], i); }
  }

  lemma {:induction false} CopiedNames(os: seq<Original>, name: string)
    requires name in Copied(os)
    ensures NamesOriginal(os, name)
  {
    hide CopyOf, SdPath;
    var m := |os| - 1;
    if name in Copied(os[..m]) {
      CopiedNames(os[..m], name);
      var i :| 0 <= i < m && (name == CopyOf(os[..m][i].path) || name == SdPath(os[..m][i].file.identity.acl));
      assert name == CopyOf(os[i].path) || name == SdPath(os[i].file.identity.acl);
    } else {
      assert name == CopyOf(os[m].path) || name == SdPath(os[m].file.identity.acl);
    }
  }

  // ----- Insertion -----

  /** Writing a name keeps every other ref and replaces the one of that name. */
  lemma {:induction false} UpsertAdds(refs: seq<Ref>, r: Ref)
    requires DistinctPaths(refs)
    ensures forall x :: x in Upsert(refs, r) <==> x == r || (x in refs && x.path != r.path)
    ensures DistinctPaths(Upsert(refs, r))
  {
    if refs != [] {
      var m := |refs| - 1;
      var before := refs[..m];
      assert refs == before + [refs[m]];
      if refs[m].path != r.path {
        UpsertAdds(before, r);
        var all := Upsert(before, r);
        forall i | 0 <= i < |all| ensures all[i].path != refs[m].path {
          assert all[i] == r || all[i] in before;
        }
      }
    }
  }

  ghost predicate IsDescriptor(h: Hashing, os: seq<Original>, r: Ref) {
    exists i | 0 <= i < |os| :: r == RowOf(h, os[i]).sd
  }

  lemma {:induction false} SdRefsElements(h: Hashing, os: seq<Original>)
    requires Consistent(os)
    ensures DistinctPaths(SdRefs(Rows(h, os)))
    ensures forall r :: r in SdRefs(Rows(h, os)) <==> IsDescriptor(h, os, r)
  {
    hide CopyOf, SdPath;
    if os != [] {
      var m := |os| - 1;
      var before := os[..m];
      SdRefsElements(h, before);
      assert Rows(h, os)[..m] == Rows(h, before);
      var refs, sd := SdRefs(Rows(h, before)), RowOf(h, os[m]).sd;
      UpsertAdds(refs, sd);
      forall r ensures r in SdRefs(Rows(h, os)) <==> IsDescriptor(h, os, r) { DescriptorSplits(h, os, r); }
    }
  }

  lemma DescriptorSplits(h: Hashing, os: seq<Original>, r: Ref)
    requires os != [] && Consistent(os)
    ensures var m := |os| - 1;
            IsDescriptor(h, os, r) <==>
              r == RowOf(h, os[m]).sd || (IsDescriptor(h, os[..m], r) && r.path != RowOf(h, os[m]).sd.path)
  {
    hide CopyOf, SdPath;
    var m := |os| - 1;
    if IsDescriptor(h, os, r) {
      var i :| 0 <= i < |os| && r == RowOf(h, os[i]).sd;
      NamesApart(os[i].file.identity.acl, os[m].file.identity.acl);
      if i < m { assert os[..m][i] == os[i]; }
    }
    if IsDescriptor(h, os[..m], r) {
      var i :| 0 <= i < m && r == RowOf(h, os[..m][i]).sd;
      assert os[i] == os[..m][i];
    }
  }

  /** `r` is the ref of a copy or of a descriptor. */
  ghost predicate IsListed(h: Hashing, os: seq<Original>, r: Ref) {
    exists i | 0 <= i < |os| :: r == RowOf(h, os[i]).copy || r == RowOf(h, os[i]).sd
  }

  lemma {:induction false} ListingElements(h: Hashing, os: seq<Original>)
    requires Consistent(os)
    ensures DistinctPaths(Listing(h, os))
    ensures forall r :: r in Listing(h, os) <==> IsListed(h, os, r)
  {
    hide CopyOf, SdPath;
    if os != [] {
      var m := |os| - 1;
      var before := os[..m];
      ListingElements(h, before);
      var refs, row := Listing(h, before), RowOf(h, os[m]);
      forall k | 0 <= k < |refs| ensures refs[k].path != row.copy.path && (refs[k].path == row.sd.path ==> refs[k] == row.sd) {
        assert refs[k] in refs;
        ListedApart(h, os, m, refs[k]);
      }
      UpsertAdds(refs, row.copy);
      NamesApart(os[m].path, os[m].file.identity.acl);
      forall k | 0 <= k < |Upsert(refs, row.copy)|
        ensures Upsert(refs, row.copy)[k].path == row.sd.path ==> Upsert(refs, row.copy)[k] == row.sd {
        assert Upsert(refs, row.copy)[k] in Upsert(refs, row.copy);
      }
      UpsertAdds(Upsert(refs, row.copy), row.sd);
      forall r ensures r in Listing(h, os) <==> IsListed(h, os, r) { ListedSplits(h, os, r); }
    }
  }

  lemma ListedApart(h: Hashing, os: seq<Original>, m: nat, r: Ref)
    requires Consistent(os) && m < |os| && IsListed(h, os[..m], r)
    ensures r.path != CopyOf(os[m].path)
    ensures r.path == SdPath(os[m].file.identity.acl) ==> r == RowOf(h, os[m]).sd
  {
    hide CopyOf, SdPath;
    var i :| 0 <= i < m && (r == RowOf(h, os[..m][i]).copy || r == RowOf(h, os[..m][i]).sd);
    NamesApart(os[i].path, os[m].path);
    NamesApart(os[m].path, os[i].file.identity.acl);
    NamesApart(os[i].path, os[m].file.identity.acl);
    NamesApart(os[i].file.identity.acl, os[m].file.identity.acl);
  }

  lemma ListedSplits(h: Hashing, os: seq<Original>, r: Ref)
    requires os != []
    ensures IsListed(h, os, r) <==> var m := |os| - 1;
                                    IsListed(h, os[..m], r) || r == RowOf(h, os[m]).copy || r == RowOf(h, os[m]).sd
  {
    hide RowOf;
    var m := |os| - 1;
    if IsListed(h, os, r) {
      var i :| 0 <= i < |os| && (r == RowOf(h, os[i]).copy || r == RowOf(h, os[i]).sd);
      if i < m { assert os[..m][i] == os[i]; }
    }
    if IsListed(h, os[..m], r) {
      var i :| 0 <= i < m && (r == RowOf(h, os[..m][i]).copy || r == RowOf(h, os[..m][i]).sd);
      assert os[..m][i] == os[i];
    }
  }

  // ----- The two member lists -----

  /** Sorting two listings of the same refs gives the same list. */
  lemma SortsAgree(a: seq<Ref>, b: seq<Ref>)
    requires DistinctPaths(a) && DistinctPaths(b)
    requires forall r :: r in a <==> r in b
    ensures SortRefs(a) == SortRefs(b)
  {
    hide SortRefs;
    SortRefsSorts(a);
    SortRefsSorts(b);
    forall r ensures r in SortRefs(a) <==> r in SortRefs(b) {
      SortElements(a, r);
      SortElements(b, r);
    }
    AscendingUnique(SortRefs(a), SortRefs(b));
  }

  ghost predicate AreDocuments(docs: seq<Ref>) {
    |docs| == 3 && docs[0].path == "source-manifest.json" && docs[1].path == "lifecycle.json"
    && docs[2].path == "attempts.json"
  }

  lemma DistinctJoin(a: seq<Ref>, b: seq<Ref>)
    requires DistinctPaths(a) && DistinctPaths(b)
    requires forall x, y | x in a && y in b :: x.path != y.path
    ensures DistinctPaths(a + b)
  {
    var c := a + b;
    forall i, j | 0 <= i < j < |c| ensures c[i].path != c[j].path {
      if i < |a| <= j { assert c[i] in a && c[j] in b; }
    }
  }

  lemma ListingDistinct(h: Hashing, os: seq<Original>, docs: seq<Ref>)
    requires Consistent(os) && AreDocuments(docs)
    ensures DistinctPaths(Listing(h, os) + docs)
  {
    hide Listing, CopyOf, SdPath;
    ListingElements(h, os);
    forall x, y | x in Listing(h, os) && y in docs ensures x.path != y.path {
      ListedApartFromDocuments(h, os, docs, x, y);
    }
    DistinctJoin(Listing(h, os), docs);
  }

  lemma CopiesDistinct(h: Hashing, os: seq<Original>)
    requires Consistent(os)
    ensures DistinctPaths(Copies(SourceRefs(h, os)))
    ensures forall r :: r in Copies(SourceRefs(h, os)) <==> exists i | 0 <= i < |os| :: r == RowOf(h, os[i]).copy
  {
    var copies := Copies(SourceRefs(h, os));
    assert forall i | 0 <= i < |os| :: copies[i] == RowOf(h, os[i]).copy;
    forall i, j | 0 <= i < j < |copies| ensures copies[i].path != copies[j].path {
      NamesApart(os[i].path, os[j].path);
    }
  }

  lemma SourcesDistinct(h: Hashing, os: seq<Original>)
    requires Consistent(os)
    ensures DistinctPaths(Copies(SourceRefs(h, os)) + SdRefs(Rows(h, os)))
    ensures forall r :: r in Copies(SourceRefs(h, os)) + SdRefs(Rows(h, os)) <==> IsListed(h, os, r)
  {
    hide SdRefs, CopyOf, SdPath;
    CopiesDistinct(h, os);
    SdRefsElements(h, os);
    var a, b := Copies(SourceRefs(h, os)), SdRefs(Rows(h, os));
    forall x, y | x in a && y in b ensures x.path != y.path {
      var i :| 0 <= i < |os| && x == RowOf(h, os[i]).copy;
      var j :| 0 <= j < |os| && y == RowOf(h, os[j]).sd;
      NamesApart(os[i].path, os[j].file.identity.acl);
    }
    DistinctJoin(a, b);
    forall r ensures r in a + b <==> IsListed(h, os, r) {
      if IsListed(h, os, r) {
        var i :| 0 <= i < |os| && (r == RowOf(h, os[i]).copy || r == RowOf(h, os[i]).sd);
      }
    }
  }

  lemma ListedApartFromDocuments(h: Hashing, os: seq<Original>, docs: seq<Ref>, x: Ref, y: Ref)
    requires AreDocuments(docs) && IsListed(h, os, x) && y in docs
    ensures x.path != y.path
  {
    hide CopyOf, SdPath;
    var i :| 0 <= i < |os| && (x == RowOf(h, os[i]).copy || x == RowOf(h, os[i]).sd);
    NamesApart(os[i].path, os[i].file.identity.acl);
  }

  lemma DocumentsDistinct(docs: seq<Ref>)
    requires AreDocuments(docs)
    ensures DistinctPaths(docs)
  {
  }

  /** The exporter's members, sorted from its dictionary, are the ones the verifier re-derives. */
  lemma MembersAgree(h: Hashing, os: seq<Original>, docs: seq<Ref>)
    requires Consistent(os) && AreDocuments(docs)
    ensures SortRefs(Listing(h, os) + docs) == SortRefs(Copies(SourceRefs(h, os)) + SdRefs(Rows(h, os)) + docs)
  {
    hide SortRefs, Listing, SdRefs, IsListed, AreDocuments, Consistent, DistinctPaths, Copies, Rows;
    var a, b := Listing(h, os), Copies(SourceRefs(h, os)) + SdRefs(Rows(h, os));
    ListingElements(h, os);
    SourcesDistinct(h, os);
    ListingDistinct(h, os, docs);
    forall x, y | x in b && y in docs ensures x.path != y.path {
      ListedApartFromDocuments(h, os, docs, x, y);
    }
    DocumentsDistinct(docs);
    DistinctJoin(b, docs);
    SortsAgree(a + docs, b + docs);
  }
}
