/** `get_flow_results`: several sources read through one window, and the walk along its cursors. */
module FlowResults {

  import opened Base
  import opened Paging

  // ----- Source selection -----

  /** `list(dict.fromkeys(known))`. */
  function Dedupe(known: seq<string>): seq<string> {
    if known == [] then []
    else
      var before := Dedupe(known[..|known| - 1]);
      if known[|known| - 1] in before then before else before + [known[|known| - 1]]
  }

  /** The source's name within its artifact: none for the artifact itself. */
  function Suffix(artifact: string, name: string): Result<Option<string>> {
    if name == artifact then Ok(None)
    else if StartsWith(name, artifact + "/") && |name| > |artifact| + 1 then Ok(Some(name[|artifact| + 1..]))
    else Err(SourceScope)
  }

  function FullName(artifact: string, suffix: Option<string>): string {
    match suffix
    case None => artifact
    case Some(s) => artifact + "/" + s
  }

  function Suffixes(artifact: string, names: seq<string>): Result<seq<Option<string>>> {
    if names == [] then Ok([])
    else
      match Suffixes(artifact, names[..|names| - 1])
      case Err(e) => Err(e)
      case Ok(before) =>
        match Suffix(artifact, names[|names| - 1])
        case Err(e) => Err(e)
        case Ok(s) => Ok(before + [s])
  }

  /** `name.rsplit('/', 1)[-1]`. */
  function LastPart(name: string): string {
    if name == "" || name[|name| - 1] == '/' then "" else LastPart(name[..|name| - 1]) + [name[|name| - 1]]
  }

  function Matching(known: seq<string>, source: string): seq<string> {
    if known == [] then []
    else Matching(known[..|known| - 1], source)
         + (if LastPart(known[|known| - 1]) == source then [known[|known| - 1]] else [])
  }

  function Selected(artifact: string, listed: seq<string>, source: Option<string>): Result<seq<Option<string>>> {
    var known := Dedupe(listed);
    match source
    case None => Suffixes(artifact, known)
    case Some(name) =>
      if name in known then Suffixes(artifact, [name])
      else if |Matching(known, name)| != 1 then Err(SourceUnknown)
      else Suffixes(artifact, Matching(known, name))
  }

  ghost predicate Distinct<T(!new)>(xs: seq<T>) {
    forall i, j | 0 <= i < j < |xs| :: xs[i] != xs[j]
  }

  lemma {:induction false} DedupeDistinct(known: seq<string>)
    ensures Distinct(Dedupe(known)) && forall x :: x in Dedupe(known) <==> x in known
  {
    if known != [] {
      var m := |known| - 1;
      DedupeDistinct(known[..m]);
      assert known == known[..m] + [known[m]];
    }
  }

  /** A suffix names its source: adding the artifact back gives the listed name. */
  lemma {:induction false} SuffixesName(artifact: string, names: seq<string>)
    requires Suffixes(artifact, names).Ok?
    ensures |Suffixes(artifact, names).value| == |names|
    ensures forall i | 0 <= i < |names| :: FullName(artifact, Suffixes(artifact, names).value[i]) == names[i]
  {
    if names != [] {
      var m := |names| - 1;
      SuffixesName(artifact, names[..m]);
      SuffixNames(artifact, names[m]);
    }
  }

  lemma SuffixNames(artifact: string, name: string)
    requires Suffix(artifact, name).Ok?
    ensures FullName(artifact, Suffix(artifact, name).value) == name
  {
    if name != artifact { assert name == name[..|artifact| + 1] + name[|artifact| + 1..]; }
  }

  /** No source is selected twice, and each is one the flow lists; without a choice, all of them are. */
  lemma SelectionSound(artifact: string, listed: seq<string>, source: Option<string>)
    requires Selected(artifact, listed, source).Ok?
    ensures var chosen := Selected(artifact, listed, source).value;
            && Distinct(chosen)
            && (forall i | 0 <= i < |chosen| :: FullName(artifact, chosen[i]) in listed)
            && (source == None ==> forall x | x in listed :: exists i | 0 <= i < |chosen| :: FullName(artifact, chosen[i]) == x)
            && (source.Some? ==> |chosen| == 1)
  {
    hide Suffixes;
    DedupeDistinct(listed);
    var known := Dedupe(listed);
    var names := match source
      case None => known
      case Some(name) => if name in known then [name] else Matching(known, name);
    SuffixesName(artifact, names);
    forall x | source.Some? && x in Matching(known, source.value) ensures x in known { MatchingMeans(known, source.value, x); }
    var chosen := Selected(artifact, listed, source).value;
    forall x | source == None && x in listed ensures exists i | 0 <= i < |chosen| :: FullName(artifact, chosen[i]) == x {
      assert x in known;
      var i :| 0 <= i < |known| && known[i] == x;
      assert FullName(artifact, chosen[i]) == x;
    }
  }

  /** A listed name is selected by itself; another is selected by the one listed name that ends in it. */
  lemma SelectionMeans(artifact: string, listed: seq<string>, name: string)
    requires Selected(artifact, listed, Some(name)).Ok?
    ensures var chosen := Selected(artifact, listed, Some(name)).value;
            && |chosen| == 1
            && (name in listed ==> FullName(artifact, chosen[0]) == name)
            && (name !in listed ==>
                  && FullName(artifact, chosen[0]) in listed && LastPart(FullName(artifact, chosen[0])) == name
                  && forall x | x in listed && LastPart(x) == name :: x == FullName(artifact, chosen[0]))
  {
    hide Suffixes, LastPart;
    DedupeDistinct(listed);
    var known := Dedupe(listed);
    if name in known {
      SuffixesName(artifact, [name]);
    } else {
      SuffixesName(artifact, Matching(known, name));
      forall x ensures x in Matching(known, name) <==> x in known && LastPart(x) == name { MatchingMeans(known, name, x); }
      assert Matching(known, name)[0] in Matching(known, name);
    }
  }

  lemma {:induction false} MatchingMeans(known: seq<string>, source: string, x: string)
    ensures x in Matching(known, source) <==> x in known && LastPart(x) == source
  {
    hide LastPart;
    if known != [] {
      MatchingMeans(known[..|known| - 1], source, x);
      assert known == known[..|known| - 1] + [known[|known| - 1]];
    }
  }

  /** The place where a name is first listed. */
  function FirstAt(listed: seq<string>, name: string): nat {
    if listed == [] || listed[0] == name then 0 else 1 + FirstAt(listed[1..], name)
  }

  lemma {:induction false} FirstAtBound(listed: seq<string>, name: string)
    requires name in listed
    ensures FirstAt(listed, name) < |listed| && listed[FirstAt(listed, name)] == name
    ensures forall i | 0 <= i < FirstAt(listed, name) :: listed[i] != name
  {
    if listed[0] != name {
      FirstAtBound(listed[1..], name);
      assert forall i | 1 <= i < |listed| :: listed[i] == listed[1..][i - 1];
    }
  }

  lemma {:induction false} FirstAtSnoc(listed: seq<string>, last: string, name: string)
    ensures name in listed ==> FirstAt(listed + [last], name) == FirstAt(listed, name)
    ensures name !in listed && name == last ==> FirstAt(listed + [last], name) == |listed|
  {
    if listed != [] {
      FirstAtSnoc(listed[1..], last, name);
      assert (listed + [last])[1..] == listed[1..] + [last];
      assert listed == [listed[0]] + listed[1..];
    }
  }

  /** Without a choice the sources are read in the order in which they are first listed. */
  lemma {:induction false} DedupeOrder(listed: seq<string>)
    ensures forall i, j | 0 <= i < j < |Dedupe(listed)| :: FirstAt(listed, Dedupe(listed)[i]) < FirstAt(listed, Dedupe(listed)[j])
  {
    if listed != [] {
      var m := |listed| - 1;
      var before, last := listed[..m], listed[m];
      var known := Dedupe(before);
      assert listed == before + [last];
      DedupeOrder(before);
      DedupeDistinct(before);
      forall x | x in known ensures FirstAt(listed, x) == FirstAt(before, x) < m {
        FirstAtSnoc(before, last, x);
        FirstAtBound(before, x);
      }
      FirstAtSnoc(before, last, last);
      forall i, j | 0 <= i < j < |Dedupe(listed)| ensures FirstAt(listed, Dedupe(listed)[i]) < FirstAt(listed, Dedupe(listed)[j]) {
        assert known[i] in known;
        if j < |known| { assert known[j] in known; }
      }
    }
  }

  lemma SelectionOrder(artifact: string, listed: seq<string>, i: nat, j: nat)
    requires Selected(artifact, listed, None).Ok? && i < j < |Selected(artifact, listed, None).value|
    ensures var chosen := Selected(artifact, listed, None).value;
            FirstAt(listed, FullName(artifact, chosen[i])) < FirstAt(listed, FullName(artifact, chosen[j]))
  {
    hide Suffixes, Dedupe, FirstAt;
    SuffixesName(artifact, Dedupe(listed));
    DedupeOrder(listed);
  }

  /** The name is the artifact's own or that of a source of it. */
  ghost predicate InArtifact(artifact: string, name: string) {
    name == artifact || exists s: string :: s != "" && FullName(artifact, Some(s)) == name
  }

  lemma SuffixExactly(artifact: string, name: string)
    ensures Suffix(artifact, name).Ok? <==> InArtifact(artifact, name)
    ensures Suffix(artifact, name).Err? ==> Suffix(artifact, name) == Err(SourceScope)
  {
    if Suffix(artifact, name).Ok? { SuffixNames(artifact, name); }
  }

  lemma {:induction false} SuffixesExactly(artifact: string, names: seq<string>)
    ensures Suffixes(artifact, names).Ok? <==> forall x | x in names :: InArtifact(artifact, x)
    ensures Suffixes(artifact, names).Err? ==> Suffixes(artifact, names) == Err(SourceScope)
  {
    hide Suffix, InArtifact;
    if names != [] {
      var m := |names| - 1;
      assert names == names[..m] + [names[m]];
      SuffixesExactly(artifact, names[..m]);
      SuffixExactly(artifact, names[m]);
    }
  }

  /** The names a choice stands for: all, the listed one, or those that end in it. */
  ghost predicate Chosen(listed: seq<string>, source: Option<string>, x: string) {
    x in listed &&
    match source
    case None => true
    case Some(name) => if name in listed then x == name else LastPart(x) == name
  }

  /** A choice stands for exactly one listed name. */
  ghost predicate Decisive(listed: seq<string>, source: Option<string>) {
    source.Some? ==> exists x :: Chosen(listed, source, x) && forall y | Chosen(listed, source, y) :: y == x
  }

  /**
   * Selection succeeds exactly when a choice stands for one listed name and all chosen names lie in the
   * artifact; otherwise it says which of the two is wrong, the first before the second.
   */
  lemma SelectionAnswers(artifact: string, listed: seq<string>, source: Option<string>)
    ensures var r := Selected(artifact, listed, source);
            && (r == Err(SourceUnknown) <==> !Decisive(listed, source))
            && (r.Ok? <==> Decisive(listed, source) && forall x | Chosen(listed, source, x) :: InArtifact(artifact, x))
            && (r.Err? ==> r.error in {SourceUnknown, SourceScope})
  {
    hide Suffixes, LastPart, InArtifact, Chosen, Decisive;
    var known := Dedupe(listed);
    DedupeDistinct(listed);
    var names := if source == None then known else if source.value in known then [source.value] else Matching(known, source.value);
    forall x ensures x in names <==> Chosen(listed, source, x) { NamesChosen(listed, source, x); }
    SuffixesExactly(artifact, names);
    DecisiveCount(listed, source, names);
  }

  lemma NamesChosen(listed: seq<string>, source: Option<string>, x: string)
    ensures var known := Dedupe(listed);
            var names := if source == None then known else if source.value in known then [source.value] else Matching(known, source.value);
            x in names <==> Chosen(listed, source, x)
  {
    hide LastPart;
    DedupeDistinct(listed);
    if source.Some? { MatchingMeans(Dedupe(listed), source.value, x); }
  }

  lemma DecisiveCount(listed: seq<string>, source: Option<string>, names: seq<string>)
    requires forall x :: x in names <==> Chosen(listed, source, x)
    requires source.Some? ==> names == if source.value in listed then [source.value] else Matching(Dedupe(listed), source.value)
    ensures Decisive(listed, source) <==> source.Some? ==> |names| == 1
  {
    hide Chosen, Dedupe, Matching, Distinct;
    if source.Some? {
      if source.value !in listed {
        DedupeDistinct(listed);
        MatchingDistinct(Dedupe(listed), source.value);
      } else {
        OneIsDistinct(source.value);
      }
      if |names| == 1 {
        assert Chosen(listed, source, names[0]);
      } else if Decisive(listed, source) {
        var x :| Chosen(listed, source, x) && forall y | Chosen(listed, source, y) :: y == x;
        assert forall y | y in names :: Chosen(listed, source, y);
        SoleName(names, x);
      }
    }
  }

  lemma OneIsDistinct(x: string)
    ensures Distinct([x])
  {
  }

  lemma {:induction false} MatchingDistinct(known: seq<string>, source: string)
    requires Distinct(known)
    ensures Distinct(Matching(known, source))
  {
    hide LastPart;
    if known != [] {
      var m := |known| - 1;
      MatchingDistinct(known[..m], source);
      forall x | x in Matching(known[..m], source) ensures x != known[m] { MatchingMeans(known[..m], source, x); }
      assert forall i | 0 <= i < |Matching(known[..m], source)| :: Matching(known[..m], source)[i] in Matching(known[..m], source);
    }
  }

  lemma SoleName(names: seq<string>, x: string)
    requires Distinct(names) && x in names && forall y | y in names :: y == x
    ensures |names| == 1
  {
    var k := if |names| > 1 then 1 else 0;
    assert names[0] in names && names[k] in names;
  }

  // ----- One window over several sources -----

  function Concat<Row>(sources: seq<seq<Row>>): seq<Row> {
    if sources == [] then [] else sources[0] + Concat(sources[1..])
  }

  function Total<Row>(sources: seq<seq<Row>>): nat {
    if sources == [] then 0 else Total(sources[..|sources| - 1]) + |sources[|sources| - 1]|
  }

  lemma {:induction false} ConcatSnoc<Row>(sources: seq<seq<Row>>, last: seq<Row>)
    ensures Concat(sources + [last]) == Concat(sources) + last
  {
    if sources == [] {
      assert [] + [last] == [last];
      assert [last][1..] == [];
    } else {
      ConcatSnoc(sources[1..], last);
      assert (sources + [last])[1..] == sources[1..] + [last];
    }
  }

  lemma {:induction false} TotalIsLength<Row>(sources: seq<seq<Row>>)
    ensures Total(sources) == |Concat(sources)|
  {
    if sources != [] {
      var m := |sources| - 1;
      TotalIsLength(sources[..m]);
      ConcatSnoc(sources[..m], sources[m]);
      assert sources == sources[..m] + [sources[m]];
    }
  }

  /** The first `n` rows, or all when there are fewer. */
  function Take<Row>(rows: seq<Row>, n: nat): seq<Row> {
    if |rows| < n then rows else rows[..n]
  }

  lemma TakeConcat<Row>(a: seq<Row>, b: seq<Row>, n: nat)
    ensures Take(a + b, n) == Take(a, n) + Take(b, if |a| < n then n - |a| else 0)
  {
  }

  /** What reading the rest has still to give: the rows from `skip`, at most `left`. */
  function Rest<Row>(sources: seq<seq<Row>>, skip: nat, left: nat): seq<Row> {
    var all := Concat(sources);
    if skip > |all| then [] else Take(all[skip..], left)
  }

  /** Skipping a whole source, or taking what it has, leaves the rest to the later sources. */
  lemma RestSteps<Row>(sources: seq<seq<Row>>, skip: nat, left: nat)
    requires sources != [] && skip <= |Concat(sources)|
    ensures var source, later := sources[0], sources[1..];
            if skip >= |source| then
              && skip - |source| <= |Concat(later)|
              && Rest(sources, skip, left) == Rest(later, skip - |source|, left)
            else
              var window := WindowOf(source, skip, left);
              && |window| <= left
              && Rest(sources, skip, left) == window + Rest(later, 0, left - |window|)
  {
    var source, rest := sources[0], Concat(sources[1..]);
    if skip >= |source| {
      assert (source + rest)[skip..] == rest[skip - |source|..];
    } else {
      assert (source + rest)[skip..] == source[skip..] + rest;
      TakeConcat(source[skip..], rest, left);
      assert WindowOf(source, skip, left) == Take(source[skip..], left);
      assert rest[0..] == rest;
    }
  }

  lemma RestEnds<Row>(sources: seq<seq<Row>>, skip: nat, left: nat)
    requires skip <= |Concat(sources)|
    ensures left == 0 ==> Rest(sources, skip, left) == []
    ensures sources == [] ==> Rest(sources, skip, left) == []
    ensures left > 0 ==> Rest(sources, skip, left) == WindowOf(Concat(sources), skip, left)
  {
    var all := Concat(sources);
    assert left > 0 ==> Take(all[skip..], left) == WindowOf(all, skip, left);
  }

  /** The loop over sources: skip whole sources, then read windows until the count is met. */
  method ReadWindow<Row>(sources: seq<seq<Row>>, offset: nat, size: nat) returns (rows: seq<Row>)
    requires offset <= |Concat(sources)|
    ensures rows == WindowOf(Concat(sources), offset, size + 1)
  {
    hide Rest, Concat, WindowOf;
    rows := [];
    var skip: nat, left: nat, i := offset, size + 1, 0;
    assert sources[0..] == sources;
    RestEnds(sources, offset, size + 1);
    while i < |sources|
      invariant 0 <= i <= |sources|
      invariant skip <= |Concat(sources[i..])|
      invariant rows + Rest(sources[i..], skip, left) == WindowOf(Concat(sources), offset, size + 1)
    {
      var source := sources[i];
      assert sources[i..][1..] == sources[i + 1..];
      RestSteps(sources[i..], skip, left);
      if skip >= |source| {
        skip := skip - |source|;
        i := i + 1;
        continue;
      }
      var window := WindowOf(source, skip, left);
      rows := rows + window;
      left := left - |window|;
      skip := 0;
      i := i + 1;
      if left <= 0 { break; }
    }
    RestEnds(sources[i..], skip, left);
  }

  /** `get_flow_results` on the rows of its selected sources. */
  method GetFlowResults<Row>(sources: seq<seq<Row>>, cursor: Option<string>, pageSize: Option<int>,
                             measure: Page<Row> -> nat) returns (r: Result<Page<Row>>)
    ensures r == Serve(Concat(sources), cursor, pageSize, measure)
  {
    hide Pick, Concat, DecodeCursor, WindowSheet, FullSheet, WindowOf;
    var size := PageSize(pageSize);
    if size.Err? { return Err(size.error); }
    var decoded := DecodeCursor(cursor);
    if decoded.Err? { return Err(decoded.error); }
    var total := 0;
    for i := 0 to |sources|
      invariant total == Total(sources[..i])
    {
      assert sources[..i + 1][..i] == sources[..i];
      total := total + |sources[i]|;
    }
    assert sources[..|sources|] == sources;
    TotalIsLength(sources);
    if decoded.value > total { return Err(AfterEnd); }
    var window := ReadWindow(sources, decoded.value, size.value);
    WindowShowsEnough(Concat(sources), decoded.value, size.value);
    r := PaginateWindow(window, cursor, Some(size.value), measure);
  }

  // ----- The walk -----

  /** A served page holds the next rows, moves on, and says truly whether rows remain. */
  lemma PageAdvances<Row>(rows: seq<Row>, offset: nat, size: nat, measure: Page<Row> -> nat)
    requires offset <= |rows| && 1 <= size
    ensures var r := Pick(FullSheet(rows, offset, size), measure);
            && (r.Err? ==> r.error == OffsetRange || r.error.RowTooLarge?)
            && (r.Ok? ==>
                  var p := r.value;
                  && p.returned <= size && offset + p.returned <= |rows|
                  && p.data == rows[offset..offset + p.returned]
                  && (p.truncated <==> offset + p.returned < |rows|)
                  && (p.truncated <==> p.next.Some?)
                  && (p.truncated ==> p.returned > 0 && DecodeCursor(p.next) == Ok(offset + p.returned)))
  {
    hide DecodeCursor, CursorText, BestCount;
    var s := FullSheet(rows, offset, size);
    var r := Pick(s, measure);
    if r.Ok? && r.value.truncated {
      assert !Overflows(s, r.value.returned);
      CursorRoundTrip(offset + r.value.returned);
    }
  }

  /** Every one-row page fits: no row is too large wherever it stands. */
  ghost predicate RowsFit<Row>(rows: seq<Row>, size: nat, measure: Page<Row> -> nat) {
    forall offset | 0 <= offset < |rows| ::
      |FullSheet(rows, offset, size).candidate| > 0 ==> measure(PageOf(FullSheet(rows, offset, size), 1)) <= RESPONSE_BYTE_LIMIT
  }

  lemma FittingRowsServe<Row>(rows: seq<Row>, offset: nat, size: nat, measure: Page<Row> -> nat)
    requires offset <= |rows| <= MAX_CURSOR_OFFSET + 1 && 1 <= size && RowsFit(rows, size, measure)
    ensures Pick(FullSheet(rows, offset, size), measure).Ok?
  {
    hide BestCount, CursorText;
    var s := FullSheet(rows, offset, size);
    BestIsLargest(s, measure, |s.candidate|);
    if s.candidate != [] {
      assert measure(PageOf(s, 1)) <= RESPONSE_BYTE_LIMIT;
      assert forall count | 1 <= count <= |s.candidate| :: Cuts(s, count) ==> offset + count < |rows|;
    }
  }

  /**
   * Following `next_cursor` from the start ends, and gives exactly the concatenation of all sources,
   * unless a row is too large or a cursor runs out of range; small enough rows never meet either.
   */
  method FollowCursors<Row>(sources: seq<seq<Row>>, pageSize: Option<int>, measure: Page<Row> -> nat)
    returns (r: Result<seq<Row>>)
    requires PageSize(pageSize).Ok?
    ensures r.Ok? ==> r.value == Concat(sources)
    ensures r.Err? ==> r.error == OffsetRange || r.error.RowTooLarge?
    ensures |Concat(sources)| <= MAX_CURSOR_OFFSET + 1 && RowsFit(Concat(sources), PageSize(pageSize).value, measure)
            ==> r.Ok?
  {
    hide Pick, Concat, DecodeCursor, FullSheet, RowsFit;
    ghost var all, size := Concat(sources), PageSize(pageSize).value;
    SizeIsPositive(pageSize);
    var cursor: Option<string> := None;
    var seen: seq<Row> := [];
    StartCursor();
    while true
      invariant |seen| <= |all| && seen == all[..|seen|]
      invariant DecodeCursor(cursor) == Ok(|seen|)
      decreases |all| - |seen|
    {
      var page := GetFlowResults(sources, cursor, pageSize, measure);
      PageAdvances(all, |seen|, size, measure);
      if |all| <= MAX_CURSOR_OFFSET + 1 && RowsFit(all, size, measure) { FittingRowsServe(all, |seen|, size, measure); }
      if page.Err? { return Err(page.error); }
      assert seen + page.value.data == all[..|seen| + page.value.returned];
      seen := seen + page.value.data;
      if page.value.next == None { return Ok(seen); }
      cursor := page.value.next;
    }
  }

  lemma StartCursor()
    ensures DecodeCursor(None) == Ok(0)
  {
  }
}
