/** Zero-padded decimal file names and the order Python's `sorted` puts them in. */
module Names {

  import opened Base

  function Digit(d: nat): char
    requires d < 10
  {
    ('0' as int + d) as char
  }

  /** `f'{n:0{width}d}'`: at least `width` digits, more when `n` needs them. */
  function Pad(width: nat, n: nat): string
    decreases width + n
  {
    if width == 0 && n == 0 then ""
    else Pad(if width == 0 then 0 else width - 1, n / 10) + [Digit(n % 10)]
  }

  function FileName(n: nat): string {
    Pad(8, n) + ".json"
  }

  /** The request directory `r<sequence>-<key digest>`. */
  function Directory(h: Hashing, sequence: nat, key: Key): string {
    "r" + Pad(12, sequence) + "-" + h.sha(h.keyBytes(key))
  }

  function RecordPath(directory: string, index: nat): string {
    directory + "/" + FileName(index)
  }

  function Power10(w: nat): nat {
    if w == 0 then 1 else 10 * Power10(w - 1)
  }

  predicate IsDigits(s: string) {
    forall i | 0 <= i < |s| :: '0' <= s[i] <= '9'
  }

  /** The number a decimal text denotes. */
  function Value(s: string): nat
    requires IsDigits(s)
  {
    if s == "" then 0
    else 10 * Value(s[..|s| - 1]) + (s[|s| - 1] as int - '0' as int)
  }

  lemma {:induction false} PadDenotes(width: nat, n: nat)
    ensures IsDigits(Pad(width, n)) && Value(Pad(width, n)) == n
    ensures |Pad(width, n)| >= width
    ensures n < Power10(width) ==> |Pad(width, n)| == width
    decreases width + n
  {
    if width == 0 && n == 0 {
    } else {
      var w := if width == 0 then 0 else width - 1;
      PadDenotes(w, n / 10);
      var s := Pad(width, n);
      assert s[..|s| - 1] == Pad(w, n / 10);
    }
  }

  /** Code-point order on strings, as Python compares `str`. */
  predicate Less(s: string, t: string) {
    t != "" && (s == "" || s[0] < t[0] || (s[0] == t[0] && Less(s[1..], t[1..])))
  }

  lemma {:induction false} LessIrreflexive(s: string)
    ensures !Less(s, s)
  {
    if s != "" { LessIrreflexive(s[1..]); }
  }

  lemma {:induction false} LessTransitive(s: string, t: string, u: string)
    requires Less(s, t) && Less(t, u)
    ensures Less(s, u)
  {
    if s != "" && s[0] == t[0] == u[0] { LessTransitive(s[1..], t[1..], u[1..]); }
  }

  lemma {:induction false} LessTotal(s: string, t: string)
    ensures Less(s, t) || Less(t, s) || s == t
  {
    if s != "" && t != "" && s[0] == t[0] {
      LessTotal(s[1..], t[1..]);
      assert s == [s[0]] + s[1..] && t == [t[0]] + t[1..];
    }
  }

  lemma {:induction false} LessCommonPrefix(p: string, s: string, t: string)
    requires Less(s, t)
    ensures Less(p + s, p + t)
  {
    if p == "" {
      assert p + s == s && p + t == t;
    } else {
      LessCommonPrefix(p[1..], s, t);
      assert (p + s)[1..] == p[1..] + s && (p + t)[1..] == p[1..] + t;
    }
  }

  lemma {:induction false} LessExtends(s: string, t: string, a: string, b: string)
    requires |s| == |t| && Less(s, t)
    ensures Less(s + a, t + b)
  {
    assert (s + a)[1..] == s[1..] + a && (t + b)[1..] == t[1..] + b;
    if s[0] == t[0] { LessExtends(s[1..], t[1..], a, b); }
  }

  lemma LeadingDigits(n: nat, m: nat, bound: nat)
    requires n < m < 10 * bound
    ensures n / 10 <= m / 10 < bound
    ensures n / 10 == m / 10 ==> n % 10 < m % 10
  {
  }

  lemma PadSplits(width: nat, n: nat)
    requires width > 0
    ensures Pad(width, n) == Pad(width - 1, n / 10) + [Digit(n % 10)]
  {
  }

  /** Numeric order is name order as long as the number fits its field. */
  lemma {:induction false} PadOrdered(width: nat, n: nat, m: nat)
    requires n < m < Power10(width)
    ensures Less(Pad(width, n), Pad(width, m))
  {
    hide Pad, Less, Value;
    LeadingDigits(n, m, Power10(width - 1));
    PadDenotes(width - 1, n / 10);
    PadDenotes(width - 1, m / 10);
    PadSplits(width, n);
    PadSplits(width, m);
    var a, b := Pad(width - 1, n / 10), Pad(width - 1, m / 10);
    if n / 10 < m / 10 {
      PadOrdered(width - 1, n / 10, m / 10);
      LessExtends(a, b, [Digit(n % 10)], [Digit(m % 10)]);
    } else {
      LessDigits(n % 10, m % 10);
      LessCommonPrefix(a, [Digit(n % 10)], [Digit(m % 10)]);
    }
  }

  lemma LessDigits(c: nat, d: nat)
    requires c < d < 10
    ensures Less([Digit(c)], [Digit(d)])
  {
  }

  lemma RecordPathsOrdered(directory: string, n: nat, m: nat)
    requires n < m < 100000000
    ensures Less(RecordPath(directory, n), RecordPath(directory, m))
  {
    assert Power10(8) == 100000000;
    PadOrdered(8, n, m);
    PadDenotes(8, n);
    PadDenotes(8, m);
    LessExtends(Pad(8, n), Pad(8, m), ".json", ".json");
    LessCommonPrefix(directory + "/", FileName(n), FileName(m));
  }

  lemma RecordPathInjective(directory: string, n: nat, m: nat)
    requires RecordPath(directory, n) == RecordPath(directory, m)
    ensures n == m
  {
    var p := directory + "/";
    assert FileName(n) == RecordPath(directory, n)[|p|..] && FileName(m) == RecordPath(directory, m)[|p|..];
    assert Pad(8, n) == FileName(n)[..|FileName(n)| - 5];
    assert Pad(8, m) == FileName(m)[..|FileName(m)| - 5];
    PadDenotes(8, n);
    PadDenotes(8, m);
  }

  /** Strictly ascending by path: sorted, and no path twice. */
  ghost predicate Ascending(paths: seq<string>) {
    forall i, j | 0 <= i < j < |paths| :: Less(paths[i], paths[j])
  }

  function Paths(refs: seq<Ref>): (paths: seq<string>)
    ensures |paths| == |refs| && forall i | 0 <= i < |refs| :: paths[i] == refs[i].path
  {
    seq(|refs|, i requires 0 <= i < |refs| => refs[i].path)
  }

  /** `sorted(refs, key=path)`, by insertion. */
  function SortRefs(refs: seq<Ref>): seq<Ref> {
    if refs == [] then [] else Insert(SortRefs(refs[1..]), refs[0])
  }

  function Insert(sorted: seq<Ref>, r: Ref): seq<Ref> {
    if sorted == [] || !Less(sorted[0].path, r.path) then [r] + sorted
    else [sorted[0]] + Insert(sorted[1..], r)
  }

  lemma {:induction false} InsertKeeps(sorted: seq<Ref>, r: Ref)
    requires Ascending(Paths(sorted))
    requires r.path !in Paths(sorted)
    ensures Ascending(Paths(Insert(sorted, r)))
  {
    if sorted == [] {
    } else if !Less(sorted[0].path, r.path) {
      LessTotal(sorted[0].path, r.path);
      assert Paths(sorted)[0] == sorted[0].path;
      forall j | 0 < j < |sorted| ensures Less(r.path, sorted[j].path) {
        assert Less(Paths(sorted)[0], Paths(sorted)[j]);
        LessTransitive(r.path, sorted[0].path, sorted[j].path);
      }
      AscendingCons(r, sorted);
    } else {
      var tail := sorted[1..];
      AscendingTail(sorted);
      assert forall i | 0 <= i < |tail| :: Paths(tail)[i] == Paths(sorted)[i + 1];
      InsertKeeps(tail, r);
      var rest := Insert(tail, r);
      forall j | 0 <= j < |rest| ensures Less(sorted[0].path, rest[j].path) {
        InsertElements(tail, r, rest[j]);
        if rest[j] != r {
          var i :| 0 <= i < |tail| && tail[i] == rest[j];
          assert Less(Paths(sorted)[0], Paths(sorted)[i + 1]);
        }
      }
      AscendingCons(sorted[0], rest);
    }
  }

  lemma AscendingCons(r: Ref, rest: seq<Ref>)
    requires Ascending(Paths(rest)) && forall j | 0 <= j < |rest| :: Less(r.path, rest[j].path)
    ensures Ascending(Paths([r] + rest))
  {
    hide Less;
    var all := [r] + rest;
    forall i, j | 0 <= i < j < |all| ensures Less(Paths(all)[i], Paths(all)[j]) {
      if i > 0 { assert Less(Paths(rest)[i - 1], Paths(rest)[j - 1]); }
    }
  }

  lemma {:induction false} InsertCounts(sorted: seq<Ref>, r: Ref)
    ensures multiset(Insert(sorted, r)) == multiset(sorted) + multiset{r}
  {
    if sorted != [] && Less(sorted[0].path, r.path) {
      InsertCounts(sorted[1..], r);
      assert sorted == [sorted[0]] + sorted[1..];
    }
  }

  lemma {:induction false} InsertElements(sorted: seq<Ref>, r: Ref, x: Ref)
    ensures x in Insert(sorted, r) <==> x == r || x in sorted
  {
    if sorted != [] && Less(sorted[0].path, r.path) {
      InsertElements(sorted[1..], r, x);
      assert sorted == [sorted[0]] + sorted[1..];
    }
  }

  lemma {:induction false} SortElements(refs: seq<Ref>, x: Ref)
    ensures x in SortRefs(refs) <==> x in refs
  {
    if refs != [] {
      SortElements(refs[1..], x);
      InsertElements(SortRefs(refs[1..]), refs[0], x);
      assert refs == [refs[0]] + refs[1..];
    }
  }

  predicate DistinctPaths(refs: seq<Ref>) {
    forall i, j | 0 <= i < j < |refs| :: refs[i].path != refs[j].path
  }

  lemma {:induction false} SortRefsSorts(refs: seq<Ref>)
    requires DistinctPaths(refs)
    ensures Ascending(Paths(SortRefs(refs)))
    ensures multiset(SortRefs(refs)) == multiset(refs)
  {
    if refs != [] {
      var tail := refs[1..];
      SortRefsSorts(tail);
      assert refs == [refs[0]] + tail;
      var sorted := SortRefs(tail);
      forall i | 0 <= i < |sorted| ensures sorted[i].path != refs[0].path {
        assert sorted[i] in multiset(sorted);
        assert sorted[i] in tail;
      }
      InsertKeeps(sorted, refs[0]);
      InsertCounts(sorted, refs[0]);
    }
  }

  /** A set of refs has at most one path-ascending listing. */
  lemma {:induction false} AscendingUnique(a: seq<Ref>, b: seq<Ref>)
    requires Ascending(Paths(a)) && Ascending(Paths(b))
    requires forall r :: r in a <==> r in b
    ensures a == b
  {
    hide Less, Ascending;
    assert b != [] ==> b[0] in b;
    if a != [] {
      assert a[0] in b && b[0] in a;
      HeadIsLeast(a, b[0]);
      HeadIsLeast(b, a[0]);
      if a[0] != b[0] {
        LessTransitive(a[0].path, b[0].path, a[0].path);
        LessIrreflexive(a[0].path);
      }
      AscendingTail(a);
      AscendingTail(b);
      HeadNotInTail(a);
      HeadNotInTail(b);
      assert a == [a[0]] + a[1..] && b == [a[0]] + b[1..];
      assert forall r :: r in a[1..] <==> r in a && r != a[0];
      assert forall r :: r in b[1..] <==> r in b && r != a[0];
      AscendingUnique(a[1..], b[1..]);
    }
  }

  lemma HeadIsLeast(a: seq<Ref>, r: Ref)
    requires Ascending(Paths(a)) && r in a
    ensures r == a[0] || Less(a[0].path, r.path)
  {
    hide Less;
    var k :| 0 <= k < |a| && a[k] == r;
    if k > 0 { assert Less(Paths(a)[0], Paths(a)[k]); }
  }

  lemma AscendingTail(a: seq<Ref>)
    requires a != [] && Ascending(Paths(a))
    ensures Ascending(Paths(a[1..]))
  {
    assert forall i | 0 <= i < |a[1..]| :: Paths(a[1..])[i] == Paths(a)[i + 1];
  }

  lemma HeadNotInTail(a: seq<Ref>)
    requires a != [] && Ascending(Paths(a))
    ensures a[0] !in a[1..]
  {
    forall i | 0 < i < |a| ensures a[i] != a[0] {
      assert Less(Paths(a)[0], Paths(a)[i]);
      LessIrreflexive(a[0].path);
    }
  }
}
