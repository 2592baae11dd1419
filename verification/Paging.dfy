/** Opaque cursors and byte-limited pages. */
module Paging {

  import opened Base
  import Names

  datatype Error =
    | CursorFormat
    | LeadingZero
    | OffsetRange
    | AfterEnd
    | PageSizeRange
    | RowTooLarge(index: nat, actual: nat)
    | SourceUnknown
    | SourceScope

  datatype Result<+T> = Ok(value: T) | Err(error: Error)

  const MAX_CURSOR_OFFSET: nat := 2147483647
  const MAX_CURSOR_LENGTH: nat := 13
  const DEFAULT_PAGE_SIZE: nat := 50
  const MAX_PAGE_SIZE: nat := 250
  const RESPONSE_BYTE_LIMIT: nat := 245554

  // ----- Cursors -----

  function CursorText(offset: nat): string {
    "v1:" + Names.Pad(1, offset)
  }

  function EncodeCursor(offset: nat): Result<string> {
    if offset > MAX_CURSOR_OFFSET then Err(OffsetRange) else Ok(CursorText(offset))
  }

  function DecodeCursor(cursor: Option<string>): Result<nat> {
    if cursor == None || cursor == Some("") then Ok(0)
    else
      var c := cursor.value;
      if |c| > MAX_CURSOR_LENGTH || |c| < 3 || c[..3] != "v1:" then Err(CursorFormat)
      else
        var digits := c[3..];
        if digits == "" || !Names.IsDigits(digits) then Err(CursorFormat)
        else if |digits| > 1 && digits[0] == '0' then Err(LeadingZero)
        else if Names.Value(digits) > MAX_CURSOR_OFFSET then Err(OffsetRange)
        else Ok(Names.Value(digits))
  }

  /** A decimal text without leading zeros is the shortest text of its value. */
  lemma {:induction false} PadIsShortest(n: nat, w: nat)
    requires n < Names.Power10(w) && w >= 1
    ensures 1 <= |Names.Pad(1, n)| <= w
    ensures n > 0 ==> Names.Pad(1, n)[0] != '0'
    ensures n > 0 ==> Names.Pad(0, n) == Names.Pad(1, n)
  {
    assert Names.Pad(0, 0) == "";
    if n >= 10 {
      PadIsShortest(n / 10, w - 1);
    } else {
      assert n / 10 == 0;
      assert Names.Pad(1, n) == Names.Pad(0, 0) + [Names.Digit(n)];
    }
  }

  lemma {:induction false} ValueInverts(digits: string)
    requires digits != "" && Names.IsDigits(digits) && (|digits| > 1 ==> digits[0] != '0')
    ensures Names.Pad(1, Names.Value(digits)) == digits
    ensures digits[0] != '0' ==> Names.Value(digits) > 0
  {
    hide Names.Pad;
    var m := |digits| - 1;
    var last := digits[m] as int - '0' as int;
    assert digits == digits[..m] + [digits[m]];
    assert Names.Digit(last) == digits[m];
    if m == 0 {
      assert digits[..m] == "";
      PadDigit(last);
    } else {
      ValueInverts(digits[..m]);
      PadSnoc(Names.Value(digits[..m]), last);
    }
  }

  lemma PadDigit(d: nat)
    requires d < 10
    ensures Names.Pad(1, d) == [Names.Digit(d)]
  {
    assert d / 10 == 0 && d % 10 == d;
    assert Names.Pad(0, 0) == "";
    assert Names.Pad(1, d) == Names.Pad(0, d / 10) + [Names.Digit(d % 10)];
  }

  lemma PadSnoc(n: nat, last: nat)
    requires n > 0 && last < 10
    ensures Names.Pad(1, 10 * n + last) == Names.Pad(1, n) + [Names.Digit(last)]
  {
    AlwaysBelow(n);
    PadIsShortest(n, n + 1);
    assert (10 * n + last) / 10 == n && (10 * n + last) % 10 == last;
  }

  lemma {:induction false} AlwaysBelow(n: nat)
    ensures n < Names.Power10(n + 1)
  {
    if n > 0 { AlwaysBelow(n - 1); }
  }

  /** Decoding undoes encoding, and a page's cursor always fits the length gate. */
  lemma CursorRoundTrip(offset: nat)
    requires offset <= MAX_CURSOR_OFFSET
    ensures EncodeCursor(offset).Ok?
    ensures DecodeCursor(Some(EncodeCursor(offset).value)) == Ok(offset)
  {
    hide Names.Pad, Names.Value, Names.Power10;
    TenDigits(offset);
    Names.PadDenotes(1, offset);
    assert CursorText(offset)[3..] == Names.Pad(1, offset);
  }

  lemma TenDigits(offset: nat)
    requires offset <= MAX_CURSOR_OFFSET
    ensures 1 <= |Names.Pad(1, offset)| <= 10
    ensures |Names.Pad(1, offset)| > 1 ==> Names.Pad(1, offset)[0] != '0'
  {
    assert Names.Power10(10) == 10000000000;
    PadIsShortest(offset, 10);
    PadDigit(0);
  }

  /** Encoding undoes decoding: every accepted cursor text but the empty one is canonical. */
  lemma CursorCanonical(c: string)
    requires DecodeCursor(Some(c)).Ok? && c != ""
    ensures EncodeCursor(DecodeCursor(Some(c)).value) == Ok(c)
  {
    ValueInverts(c[3..]);
    assert c == c[..3] + c[3..];
  }

  function PageSize(value: Option<int>): Result<nat> {
    match value
    case None => Ok(DEFAULT_PAGE_SIZE)
    case Some(n) => if 1 <= n <= MAX_PAGE_SIZE then Ok(n) else Err(PageSizeRange)
  }

  // ----- Pages -----

  datatype Page<Row> = Page(data: seq<Row>, cursor: string, next: Option<string>, size: nat, returned: nat, truncated: bool)

  /** The rows a page may take, and whether more follow them. */
  datatype Sheet<Row> = Sheet(candidate: seq<Row>, offset: nat, size: nat, more: bool)

  predicate Cuts<Row>(s: Sheet<Row>, count: nat) {
    s.more || count < |s.candidate|
  }

  function PageOf<Row>(s: Sheet<Row>, count: nat): Page<Row>
    requires count <= |s.candidate|
  {
    Page(s.candidate[..count], CursorText(s.offset),
         if Cuts(s, count) then Some(CursorText(s.offset + count)) else None, s.size, count, Cuts(s, count))
  }

  /** A page of `count` rows would need a cursor past the range. */
  predicate Overflows<Row>(s: Sheet<Row>, count: nat) {
    Cuts(s, count) && s.offset + count > MAX_CURSOR_OFFSET
  }

  /** The largest count up to `n` whose page fits the byte limit, or zero. */
  function BestCount<Row>(s: Sheet<Row>, measure: Page<Row> -> nat, n: nat): (best: nat)
    requires n <= |s.candidate|
    ensures best <= n
  {
    if n == 0 || measure(PageOf(s, n)) <= RESPONSE_BYTE_LIMIT then n else BestCount(s, measure, n - 1)
  }

  /** The page of the largest fitting row count. */
  function Pick<Row>(s: Sheet<Row>, measure: Page<Row> -> nat): Result<Page<Row>> {
    if s.candidate == [] then Ok(PageOf(s, 0))
    else if exists count | 1 <= count <= |s.candidate| :: Overflows(s, count) then Err(OffsetRange)
    else
      var best := BestCount(s, measure, |s.candidate|);
      if best == 0 then Err(RowTooLarge(s.offset, measure(PageOf(s, 1)))) else Ok(PageOf(s, best))
  }

  lemma {:induction false} BestIsLargest<Row>(s: Sheet<Row>, measure: Page<Row> -> nat, n: nat)
    requires n <= |s.candidate|
    ensures var best := BestCount(s, measure, n);
            && (best > 0 ==> measure(PageOf(s, best)) <= RESPONSE_BYTE_LIMIT)
            && forall count | best < count <= n :: measure(PageOf(s, count)) > RESPONSE_BYTE_LIMIT
  {
    if n > 0 && measure(PageOf(s, n)) > RESPONSE_BYTE_LIMIT { BestIsLargest(s, measure, n - 1); }
  }

  /**
   * The answer is the largest page that fits: an answered page fits and no larger one does, and a row is
   * too large exactly where no page of any count fits.
   */
  lemma PickIsLargest<Row>(s: Sheet<Row>, measure: Page<Row> -> nat)
    requires s.candidate != []
    ensures var r := Pick(s, measure);
            && (r.Ok? ==>
                  && 1 <= r.value.returned <= |s.candidate| && r.value == PageOf(s, r.value.returned)
                  && measure(r.value) <= RESPONSE_BYTE_LIMIT
                  && forall count | r.value.returned < count <= |s.candidate| :: measure(PageOf(s, count)) > RESPONSE_BYTE_LIMIT)
            && (r.Err? ==> r.error == OffsetRange || r.error == RowTooLarge(s.offset, measure(PageOf(s, 1))))
            && (r.Err? && r.error.RowTooLarge? ==>
                  forall count | 1 <= count <= |s.candidate| :: measure(PageOf(s, count)) > RESPONSE_BYTE_LIMIT)
            && (r == Err(OffsetRange) <==> exists count | 1 <= count <= |s.candidate| :: Overflows(s, count))
  {
    hide BestCount;
    BestIsLargest(s, measure, |s.candidate|);
  }

  /** The rows from `offset`, at most `size` of them. */
  function FullSheet<Row>(rows: seq<Row>, offset: nat, size: nat): Sheet<Row>
    requires offset <= |rows|
  {
    var end := if |rows| < offset + size then |rows| else offset + size;
    Sheet(rows[offset..end], offset, size, end < |rows|)
  }

  function WindowSheet<Row>(window: seq<Row>, offset: nat, size: nat): Sheet<Row> {
    Sheet(if |window| > size then window[..size] else window, offset, size, |window| > size)
  }

  /** What a backend answers when asked for `count` rows from `offset`. */
  function WindowOf<Row>(rows: seq<Row>, offset: nat, count: nat): seq<Row>
    requires offset <= |rows|
  {
    rows[offset..if |rows| < offset + count then |rows| else offset + count]
  }

  /** A window of one row more than the page shows as much as the whole list. */
  lemma WindowShowsEnough<Row>(rows: seq<Row>, offset: nat, size: nat)
    requires offset <= |rows|
    ensures WindowSheet(WindowOf(rows, offset, size + 1), offset, size) == FullSheet(rows, offset, size)
  {
    var w := WindowOf(rows, offset, size + 1);
    if |w| > size { assert w[..size] == rows[offset..offset + size]; }
  }

  /** The whole answer to a page request on one list, errors in the order they are raised. */
  function Serve<Row>(rows: seq<Row>, cursor: Option<string>, pageSize: Option<int>, measure: Page<Row> -> nat)
    : Result<Page<Row>>
  {
    match PageSize(pageSize)
    case Err(e) => Err(e)
    case Ok(size) =>
      match DecodeCursor(cursor)
      case Err(e) => Err(e)
      case Ok(offset) => if offset > |rows| then Err(AfterEnd) else Pick(FullSheet(rows, offset, size), measure)
  }

  /** A good request inside the list is answered with the largest page from its offset, none with more rows fitting. */
  lemma ServeIsLargest<Row>(rows: seq<Row>, cursor: Option<string>, pageSize: Option<int>, measure: Page<Row> -> nat)
    requires Serve(rows, cursor, pageSize, measure).Ok?
    ensures PageSize(pageSize).Ok? && DecodeCursor(cursor).Ok? && DecodeCursor(cursor).value <= |rows|
    ensures var p, s := Serve(rows, cursor, pageSize, measure).value,
                        FullSheet(rows, DecodeCursor(cursor).value, PageSize(pageSize).value);
            && p.returned <= |s.candidate| && p == PageOf(s, p.returned)
            && |s.candidate| == (if |rows| - s.offset < s.size then |rows| - s.offset else s.size)
            && s.offset == DecodeCursor(cursor).value && s.size == PageSize(pageSize).value
            && (s.candidate != [] ==> p.returned > 0 && measure(p) <= RESPONSE_BYTE_LIMIT)
            && forall count | p.returned < count <= |s.candidate| :: measure(PageOf(s, count)) > RESPONSE_BYTE_LIMIT
  {
    hide BestCount, DecodeCursor;
    var s := FullSheet(rows, DecodeCursor(cursor).value, PageSize(pageSize).value);
    if s.candidate != [] { PickIsLargest(s, measure); }
  }

  /** The answer to a page request on a backend window. */
  function ServeWindow<Row>(window: seq<Row>, cursor: Option<string>, pageSize: Option<int>, measure: Page<Row> -> nat)
    : Result<Page<Row>>
  {
    match PageSize(pageSize)
    case Err(e) => Err(e)
    case Ok(size) =>
      match DecodeCursor(cursor)
      case Err(e) => Err(e)
      case Ok(offset) => Pick(WindowSheet(window, offset, size), measure)
  }

  /**
   * On the window of `page_size + 1` rows that the backend answers at the cursor's offset, the windowed
   * function gives the very answer of the whole list: page, row-too-large and cursor-range errors alike,
   * and a bad page size or cursor is refused alike whatever the window.
   */
  lemma WindowServesWhole<Row>(rows: seq<Row>, window: seq<Row>, cursor: Option<string>, pageSize: Option<int>,
                               measure: Page<Row> -> nat)
    requires PageSize(pageSize).Ok? && DecodeCursor(cursor).Ok? ==>
               && DecodeCursor(cursor).value <= |rows|
               && window == WindowOf(rows, DecodeCursor(cursor).value, PageSize(pageSize).value + 1)
    ensures ServeWindow(window, cursor, pageSize, measure) == Serve(rows, cursor, pageSize, measure)
  {
    hide Pick, DecodeCursor, WindowSheet, FullSheet, WindowOf;
    if PageSize(pageSize).Ok? && DecodeCursor(cursor).Ok? {
      WindowShowsEnough(rows, DecodeCursor(cursor).value, PageSize(pageSize).value);
    }
  }

  lemma {:induction false} BestStep<Row>(s: Sheet<Row>, measure: Page<Row> -> nat, n: nat)
    requires 0 < n <= |s.candidate|
    ensures BestCount(s, measure, n)
            == if measure(PageOf(s, n)) <= RESPONSE_BYTE_LIMIT then n else BestCount(s, measure, n - 1)
  {
  }

  lemma BestOfNone<Row>(s: Sheet<Row>, measure: Page<Row> -> nat)
    ensures BestCount(s, measure, 0) == 0
  {
  }

  lemma SizeIsPositive(pageSize: Option<int>)
    requires PageSize(pageSize).Ok?
    ensures 1 <= PageSize(pageSize).value <= MAX_PAGE_SIZE
  {
  }

  /** `paginate_result`: tries every count, and keeps the last page that fits. */
  method PaginateResult<Row>(rows: seq<Row>, cursor: Option<string>, pageSize: Option<int>, measure: Page<Row> -> nat)
    returns (r: Result<Page<Row>>)
    ensures r == Serve(rows, cursor, pageSize, measure)
  {
    hide BestCount, CursorText, DecodeCursor, PageSize;
    var size := PageSize(pageSize);
    if size.Err? { return Err(size.error); }
    SizeIsPositive(pageSize);
    var decoded := DecodeCursor(cursor);
    if decoded.Err? { return Err(decoded.error); }
    var offset, total := decoded.value, |rows|;
    if offset > total { return Err(AfterEnd); }
    var end := if total < offset + size.value then total else offset + size.value;
    var candidate := rows[offset..end];
    ghost var s := FullSheet(rows, offset, size.value);
    if candidate == [] {
      return Ok(Page([], CursorText(offset), None, size.value, 0, false));
    }
    var best: Option<Page<Row>> := None;
    BestOfNone(s, measure);
    for count := 1 to |candidate| + 1
      invariant best == if BestCount(s, measure, count - 1) == 0 then None
                        else Some(PageOf(s, BestCount(s, measure, count - 1)))
      invariant forall c | 1 <= c < count :: !Overflows(s, c)
    {
      var truncated := offset + count < total;
      if truncated && offset + count > MAX_CURSOR_OFFSET {
        assert Overflows(s, count);
        return Err(OffsetRange);
      }
      var current := Page(candidate[..count], CursorText(offset),
                          if truncated then Some(CursorText(offset + count)) else None, size.value, count, truncated);
      assert current == PageOf(s, count);
      BestStep(s, measure, count);
      if measure(current) <= RESPONSE_BYTE_LIMIT { best := Some(current); }
    }
    if best == None {
      var cut := offset + 1 < total;
      var first := Page(candidate[..1], CursorText(offset), if cut then Some(CursorText(offset + 1)) else None,
                        size.value, 1, cut);
      return Err(RowTooLarge(offset, measure(first)));
    }
    r := Ok(best.value);
  }

  /** `paginate_window_result`: the same scan over a backend window of `size + 1` rows. */
  method PaginateWindow<Row>(window: seq<Row>, cursor: Option<string>, pageSize: Option<int>, measure: Page<Row> -> nat)
    returns (r: Result<Page<Row>>)
    ensures r == ServeWindow(window, cursor, pageSize, measure)
  {
    hide BestCount, CursorText, DecodeCursor, PageSize;
    var size := PageSize(pageSize);
    if size.Err? { return Err(size.error); }
    SizeIsPositive(pageSize);
    var decoded := DecodeCursor(cursor);
    if decoded.Err? { return Err(decoded.error); }
    var offset := decoded.value;
    var more := |window| > size.value;
    var candidate := if more then window[..size.value] else window;
    ghost var s := WindowSheet(window, offset, size.value);
    if candidate == [] {
      return Ok(Page([], CursorText(offset), None, size.value, 0, false));
    }
    var best: Option<Page<Row>> := None;
    BestOfNone(s, measure);
    for count := 1 to |candidate| + 1
      invariant best == if BestCount(s, measure, count - 1) == 0 then None
                        else Some(PageOf(s, BestCount(s, measure, count - 1)))
      invariant forall c | 1 <= c < count :: !Overflows(s, c)
    {
      var truncated := more || count < |candidate|;
      if truncated && offset + count > MAX_CURSOR_OFFSET {
        assert Overflows(s, count);
        return Err(OffsetRange);
      }
      var current := Page(candidate[..count], CursorText(offset),
                          if truncated then Some(CursorText(offset + count)) else None, size.value, count, truncated);
      assert current == PageOf(s, count);
      BestStep(s, measure, count);
      if measure(current) <= RESPONSE_BYTE_LIMIT { best := Some(current); }
    }
    if best == None {
      var cut := more || 1 < |candidate|;
      var first := Page(candidate[..1], CursorText(offset), if cut then Some(CursorText(offset + 1)) else None,
                        size.value, 1, cut);
      return Err(RowTooLarge(offset, measure(first)));
    }
    r := Ok(best.value);
  }

  // ----- Byte size is not monotone in the row count -----

  /** The length of the canonical JSON of a page whose rows print as long as they say; `base` is the fixed text. */
  function WireSize(base: nat, p: Page<nat>): nat {
    base + RowBytes(p.data) + (if |p.data| > 1 then |p.data| - 1 else 0) + |p.cursor|
    + (if p.next.Some? then |p.next.value| + 2 else 4) + |Names.Pad(1, p.size)| + |Names.Pad(1, p.returned)|
    + (if p.truncated then 4 else 5)
  }

  function RowBytes(rows: seq<nat>): nat {
    if rows == [] then 0 else RowBytes(rows[..|rows| - 1]) + rows[|rows| - 1]
  }

  /**
   * The last row can make the page shorter, by replacing a long next cursor with null: here two rows
   * fit although the first alone does not, and a scan that stopped at the first overflow would refuse.
   */
  lemma LargerPageCanFit(base: nat)
    requires base <= 1000
    ensures var first: nat := RESPONSE_BYTE_LIMIT - base - 33;
            var s: Sheet<nat> := Sheet([first, 2], 1000000000, 2, false);
            && WireSize(base, PageOf(s, 1)) > RESPONSE_BYTE_LIMIT
            && WireSize(base, PageOf(s, 2)) <= RESPONSE_BYTE_LIMIT
            && Pick(s, (p: Page<nat>) => WireSize(base, p)) == Ok(PageOf(s, 2))
  {
    hide Names.Pad, CursorText, RowBytes;
    var first: nat := RESPONSE_BYTE_LIMIT - base - 33;
    var s: Sheet<nat> := Sheet([first, 2], 1000000000, 2, false);
    CursorWidth(1000000000);
    CursorWidth(1000000001);
    PadDigit(2);
    PadDigit(1);
    TwoRowBytes(first, 2);
    assert s.candidate[..1] == [first] && s.candidate[..2] == [first, 2];
    assert !Overflows(s, 1) && !Overflows(s, 2);
  }

  lemma TwoRowBytes(a: nat, b: nat)
    ensures RowBytes([a]) == a && RowBytes([a, b]) == a + b
  {
    assert [a][..0] == [] && [a, b][..1] == [a];
  }

  lemma CursorWidth(offset: nat)
    requires 1000000000 <= offset <= MAX_CURSOR_OFFSET
    ensures |CursorText(offset)| == 13
  {
    assert Names.Power10(10) == 10000000000;
    PadIsShortest(offset, 10);
    Names.PadDenotes(1, offset);
    ValueBelow(Names.Pad(1, offset));
    assert Names.Power10(9) == 1000000000;
    PowerGrows(|Names.Pad(1, offset)|, 9);
  }

  lemma {:induction false} ValueBelow(digits: string)
    requires Names.IsDigits(digits)
    ensures Names.Value(digits) < Names.Power10(|digits|)
  {
    if digits != "" { ValueBelow(digits[..|digits| - 1]); }
  }

  lemma {:induction false} PowerGrows(a: nat, b: nat)
    ensures a <= b ==> Names.Power10(a) <= Names.Power10(b)
  {
    if a < b { PowerGrows(a, b - 1); }
  }
}
