/**
 * The two depth gates: an iterative depth-first walk over a value, and a byte scanner over its
 * canonical text. Both decide recursive container depth.
 */
module JsonDepth {

  import opened Base
  import Names

  /** The text of a finite number as `float.__repr__` writes it. */
  type Numeral = s: string | forall i | 0 <= i < |s| :: s[i] in "0123456789.e+-" witness "0"

  datatype Key = Name(text: string) | Odd

  /** An acyclic encoder input, dictionary keys beside their values; `Foreign` is of a type JSON does not have. */
  datatype Json =
    | Null
    | Bool(truth: bool)
    | Int(number: int)
    | Float(finite: bool, numeral: Numeral)
    | Text(text: string)
    | Foreign
    | List(items: seq<Json>)
    | Dict(keys: seq<Key>, items: seq<Json>)

  predicate IsContainer(v: Json) {
    v.List? || v.Dict?
  }

  /** Container nesting, by recursion. */
  function Depth(v: Json): nat {
    if IsContainer(v) then 1 + DepthAll(v.items) else 0
  }

  function DepthAll(ms: seq<Json>): nat {
    if ms == [] then 0 else Max(Depth(ms[0]), DepthAll(ms[1..]))
  }

  predicate Encodable(v: Json) {
    match v
    case Float(finite, _) => finite
    case Foreign => false
    case List(ms) => EncodableAll(ms)
    case Dict(keys, ms) => Named(keys, |ms|) && EncodableAll(ms)
    case _ => true
  }

  predicate EncodableAll(ms: seq<Json>) {
    ms == [] || (Encodable(ms[0]) && EncodableAll(ms[1..]))
  }

  predicate Named(keys: seq<Key>, n: nat) {
    |keys| == n && forall i | 0 <= i < n :: keys[i].Name?
  }

  // ----- The walk over a value -----

  function Size(v: Json): nat {
    if IsContainer(v) then 2 + SizeAll(v.items) else 1
  }

  function SizeAll(ms: seq<Json>): nat {
    if ms == [] then 0 else Size(ms[0]) + SizeAll(ms[1..])
  }

  /** The work left on a stack of frames. */
  ghost function Work(stack: seq<seq<Json>>): nat {
    if stack == [] then 0 else Work(stack[..|stack| - 1]) + 1 + SizeAll(stack[|stack| - 1])
  }

  ghost predicate Fits(v: Json, room: int) {
    Encodable(v) && Depth(v) <= room
  }

  ghost predicate FitsAll(ms: seq<Json>, room: int) {
    EncodableAll(ms) && DepthAll(ms) <= room
  }

  /** Everything left in frame `j` fits what is left of the bound there. */
  ghost predicate StackFits(stack: seq<seq<Json>>, maximum: nat) {
    forall j | 0 <= j < |stack| :: FitsAll(stack[j], maximum - j)
  }

  lemma FitsUnfolds(v: Json, ms: seq<Json>, room: int)
    ensures ms == [] ==> (FitsAll(ms, room) <==> 0 <= room)
    ensures ms != [] ==> (FitsAll(ms, room) <==> Fits(ms[0], room) && FitsAll(ms[1..], room))
    ensures IsContainer(v) ==>
              && (Fits(v, room) <==> (v.Dict? ==> Named(v.keys, |v.items|)) && FitsAll(v.items, room - 1))
              && (FitsAll(v.items, room - 1) ==> 0 < room)
    ensures !IsContainer(v) ==> (Fits(v, room) <==> !(v.Float? && !v.finite) && !v.Foreign? && 0 <= room)
  {
  }

  lemma StackSplits(below: seq<seq<Json>>, top: seq<Json>, maximum: nat)
    ensures StackFits(below + [top], maximum) <==> StackFits(below, maximum) && FitsAll(top, maximum - |below|)
  {
    var all := below + [top];
    assert all[|below|] == top;
    assert forall j | 0 <= j < |below| :: all[j] == below[j];
  }

  lemma WorkSplits(below: seq<seq<Json>>, top: seq<Json>)
    ensures Work(below + [top]) == Work(below) + 1 + SizeAll(top)
  {
    assert (below + [top])[..|below|] == below;
  }

  /** `_encoding_shape`. */
  method EncodingShape(v: Json, maximum: nat) returns (ok: bool)
    ensures ok <==> Encodable(v) && Depth(v) <= maximum
  {
    FitsMeans(v, maximum);
    hide Work, StackFits, FitsAll, Fits;
    FitsUnfolds(v, [v], maximum);
    FitsUnfolds(v, [], maximum);
    var first := [v];
    var stack := [first];
    StackSplits([], first, maximum);
    EmptyFits(maximum);
    assert [] + [first] == stack;
    assert first[1..] == [];
    while stack != []
      invariant |stack| <= maximum + 1
      invariant StackFits(stack, maximum) <==> Fits(v, maximum)
      decreases Work(stack)
    {
      var below, top := stack[..|stack| - 1], stack[|stack| - 1];
      assert stack == below + [top];
      StackSplits(below, top, maximum);
      WorkSplits(below, top);
      if top == [] {
        FitsUnfolds(v, top, maximum - |below|);
        stack := below;
        continue;
      }
      var item, rest := top[0], top[1..];
      FitsUnfolds(item, top, maximum - |below|);
      StackSplits(below, rest, maximum);
      WorkSplits(below, rest);
      if IsContainer(item) {
        if |stack| > maximum || (item.Dict? && !Named(item.keys, |item.items|)) { return false; }
        StackSplits(below + [rest], item.items, maximum);
        WorkSplits(below + [rest], item.items);
        stack := below + [rest] + [item.items];
      } else if (item.Float? && !item.finite) || item.Foreign? {
        return false;
      } else {
        stack := below + [rest];
      }
    }
    EmptyFits(maximum);
    ok := true;
  }

  lemma FitsMeans(v: Json, room: int)
    ensures Fits(v, room) <==> Encodable(v) && Depth(v) <= room
  {
  }

  lemma EmptyFits(maximum: nat)
    ensures StackFits([], maximum)
  {
  }

  // ----- The scanner over bytes -----

  const QUOTE: Byte := 34
  const BACKSLASH: Byte := 92

  predicate Opens(b: Byte) { b == 123 || b == 91 }

  predicate Closes(b: Byte) { b == 125 || b == 93 }

  /** The scanner's variables; `peak` is the deepest nesting any opening reached. */
  datatype Scanner = Scanner(depth: int, peak: int, quoted: bool, escaped: bool)

  const START := Scanner(0, 0, false, false)

  function Step(s: Scanner, b: Byte): Scanner {
    if s.quoted then
      if s.escaped then s.(escaped := false)
      else if b == BACKSLASH then s.(escaped := true)
      else if b == QUOTE then s.(quoted := false)
      else s
    else if b == QUOTE then s.(quoted := true)
    else if Opens(b) then s.(depth := s.depth + 1, peak := Max(s.peak, s.depth + 1))
    else if Closes(b) then s.(depth := s.depth - 1)
    else s
  }

  function Run(s: Scanner, raw: Bytes): Scanner {
    if raw == [] then s else Step(Run(s, raw[..|raw| - 1]), raw[|raw| - 1])
  }

  lemma {:induction false} PeakGrows(s: Scanner, raw: Bytes, k: nat)
    requires k <= |raw|
    ensures Run(s, raw[..k]).peak <= Run(s, raw).peak
  {
    if k == |raw| {
      assert raw[..k] == raw;
    } else {
      var before := raw[..|raw| - 1];
      PeakGrows(s, before, k);
      assert before[..k] == raw[..k];
    }
  }

  /** `_depth`: refuses at the first opening beyond the bound. */
  method DepthGate(raw: Bytes, maximum: nat) returns (ok: bool)
    ensures ok <==> Run(START, raw).peak <= maximum
  {
    var depth, quoted, escaped := 0, false, false;
    ghost var peak := 0;
    for i := 0 to |raw|
      invariant Run(START, raw[..i]) == Scanner(depth, peak, quoted, escaped) && peak <= maximum
    {
      var b := raw[i];
      assert raw[..i + 1][..i] == raw[..i];
      if quoted {
        if escaped {
          escaped := false;
        } else if b == BACKSLASH {
          escaped := true;
        } else if b == QUOTE {
          quoted := false;
        }
      } else if b == QUOTE {
        quoted := true;
      } else if Opens(b) {
        depth := depth + 1;
        peak := Max(peak, depth);
        if depth > maximum {
          PeakGrows(START, raw, i + 1);
          return false;
        }
      } else if Closes(b) {
        depth := depth - 1;
      }
    }
    assert raw[..|raw|] == raw;
    ok := true;
  }

  // ----- The canonical text -----

  /** UTF-8, section 3 of RFC 3629. */
  function Utf8(c: char): Bytes {
    var n := c as int;
    if n < 0x80 then [n as Byte]
    else if n < 0x800 then [(0xC0 + n / 0x40) as Byte, (0x80 + n % 0x40) as Byte]
    else if n < 0x10000 then
      [(0xE0 + n / 0x1000) as Byte, (0x80 + n / 0x40 % 0x40) as Byte, (0x80 + n % 0x40) as Byte]
    else
      [(0xF0 + n / 0x40000) as Byte, (0x80 + n / 0x1000 % 0x40) as Byte, (0x80 + n / 0x40 % 0x40) as Byte,
       (0x80 + n % 0x40) as Byte]
  }

  function Hex(d: nat): Byte
    requires d < 16
  {
    (if d < 10 then 48 + d else 87 + d) as Byte
  }

  /** One character of a string: section 7 of RFC 8259, with the short escapes `json.dumps` uses. */
  function Escape(c: char): Bytes {
    var n := c as int;
    if n == 34 then [BACKSLASH, QUOTE]
    else if n == 92 then [BACKSLASH, BACKSLASH]
    else if n == 10 then [BACKSLASH, 110]
    else if n == 13 then [BACKSLASH, 114]
    else if n == 9 then [BACKSLASH, 116]
    else if n == 12 then [BACKSLASH, 102]
    else if n == 8 then [BACKSLASH, 98]
    else if n < 32 then [BACKSLASH, 117, 48, 48, Hex(n / 16), Hex(n % 16)]
    else Utf8(c)
  }

  function EscapeAll(s: string): Bytes {
    if s == "" then [] else EscapeAll(s[..|s| - 1]) + Escape(s[|s| - 1])
  }

  function Quoted(s: string): Bytes {
    [QUOTE] + EscapeAll(s) + [QUOTE]
  }

  function Ascii(s: string): Bytes {
    seq(|s|, i requires 0 <= i < |s| => (s[i] as int % 256) as Byte)
  }

  function Decimal(n: int): Bytes {
    if n < 0 then Ascii("-" + Names.Pad(1, -n)) else Ascii(Names.Pad(1, n))
  }

  /** A printed member with the key it sorts by. */
  datatype Entry = Entry(key: string, text: Bytes)

  function InsertEntry(es: seq<Entry>, e: Entry): seq<Entry> {
    if es == [] || !Names.Less(es[0].key, e.key) then [e] + es else [es[0]] + InsertEntry(es[1..], e)
  }

  function SortEntries(es: seq<Entry>): seq<Entry> {
    if es == [] then [] else InsertEntry(SortEntries(es[1..]), es[0])
  }

  function Joined(es: seq<Entry>): Bytes {
    if es == [] then []
    else if |es| == 1 then es[0].text
    else es[0].text + [44] + Joined(es[1..])
  }

  /** `json.dumps` with sorted keys, compact separators and unescaped non-ASCII. */
  function Print(v: Json): Bytes {
    match v
    case Null => Ascii("null")
    case Bool(truth) => if truth then Ascii("true") else Ascii("false")
    case Int(n) => Decimal(n)
    case Float(_, numeral) => Ascii(numeral)
    case Text(s) => Quoted(s)
    case Foreign => []
    case List(ms) => [91] + Joined(Items(ms)) + [93]
    case Dict(keys, ms) => [123] + Joined(SortEntries(Fields(keys, ms))) + [125]
  }

  function Items(ms: seq<Json>): seq<Entry> {
    if ms == [] then [] else [Entry("", Print(ms[0]))] + Items(ms[1..])
  }

  function Fields(keys: seq<Key>, ms: seq<Json>): seq<Entry>
    decreases ms
  {
    if ms == [] || keys == [] || keys[0].Odd? then []
    else [Entry(keys[0].text, Quoted(keys[0].text) + [58] + Print(ms[0]))] + Fields(keys[1..], ms[1..])
  }

  function Canonical(v: Json): Bytes {
    Print(v) + [10]
  }

  // ----- The order of a dictionary does not show -----

  ghost predicate Rising(es: seq<Entry>) {
    forall i, j | 0 <= i < j < |es| :: Names.Less(es[i].key, es[j].key)
  }

  lemma {:induction false} InsertElements(es: seq<Entry>, e: Entry, x: Entry)
    ensures x in InsertEntry(es, e) <==> x == e || x in es
  {
    if es != [] && Names.Less(es[0].key, e.key) { InsertElements(es[1..], e, x); }
  }

  lemma {:induction false} InsertRises(es: seq<Entry>, e: Entry)
    requires Rising(es) && forall i | 0 <= i < |es| :: es[i].key != e.key
    ensures Rising(InsertEntry(es, e))
  {
    hide Names.Less;
    if es != [] {
      Names.LessTotal(es[0].key, e.key);
      if Names.Less(es[0].key, e.key) {
        InsertRises(es[1..], e);
        forall x | x in InsertEntry(es[1..], e) ensures Names.Less(es[0].key, x.key) { InsertElements(es[1..], e, x); }
      } else {
        forall i | 1 <= i < |es| ensures Names.Less(e.key, es[i].key) {
          Names.LessTransitive(e.key, es[0].key, es[i].key);
        }
      }
    }
  }

  lemma {:induction false} SortRises(es: seq<Entry>)
    requires forall i, j | 0 <= i < j < |es| :: es[i].key != es[j].key
    ensures Rising(SortEntries(es)) && forall x :: x in SortEntries(es) <==> x in es
  {
    hide Rising, InsertEntry;
    if es == [] {
      RisesEmpty();
    } else {
      SortRises(es[1..]);
      forall x ensures x in SortEntries(es) <==> x in es { InsertElements(SortEntries(es[1..]), es[0], x); }
      forall i | 0 <= i < |SortEntries(es[1..])| ensures SortEntries(es[1..])[i].key != es[0].key {
        assert SortEntries(es[1..])[i] in es[1..];
      }
      InsertRises(SortEntries(es[1..]), es[0]);
    }
  }

  lemma RisesEmpty()
    ensures Rising([])
  {
  }

  /** Two rising lists of the same entries are the same list. */
  lemma {:induction false} RisingIsUnique(a: seq<Entry>, b: seq<Entry>)
    requires Rising(a) && Rising(b) && forall x :: x in a <==> x in b
    ensures a == b
  {
    hide Names.Less;
    assert (a != [] ==> a[0] in b) && (b != [] ==> b[0] in a);
    if a != [] {
      SameFirst(a, b);
      forall x ensures x in a[1..] <==> x in b[1..] {
        RestOf(a, x);
        RestOf(b, x);
      }
      RisingIsUnique(a[1..], b[1..]);
      assert a == [a[0]] + a[1..] && b == [b[0]] + b[1..];
    }
  }

  lemma RestOf(a: seq<Entry>, x: Entry)
    requires Rising(a) && a != []
    ensures x in a[1..] <==> x in a && x != a[0]
  {
    Names.LessIrreflexive(a[0].key);
    assert a == [a[0]] + a[1..];
  }

  lemma SameFirst(a: seq<Entry>, b: seq<Entry>)
    requires Rising(a) && Rising(b) && a != [] && b != [] && a[0] in b && b[0] in a
    ensures a[0] == b[0]
  {
    hide Names.Less;
    var i :| 0 <= i < |b| && b[i] == a[0];
    var j :| 0 <= j < |a| && a[j] == b[0];
    if i > 0 && j > 0 {
      Names.LessTransitive(a[0].key, b[0].key, a[0].key);
      Names.LessIrreflexive(a[0].key);
    }
  }

  lemma {:induction false} FieldsAt(keys: seq<Key>, ms: seq<Json>)
    requires Named(keys, |ms|)
    ensures |Fields(keys, ms)| == |ms|
    ensures forall i | 0 <= i < |ms| ::
              Fields(keys, ms)[i] == Entry(keys[i].text, Quoted(keys[i].text) + [58] + Print(ms[i]))
  {
    hide Quoted, Print;
    if ms != [] { FieldsAt(keys[1..], ms[1..]); }
  }

  /** Every member of the first dictionary is one of the second. */
  ghost predicate Includes(keys: seq<Key>, ms: seq<Json>, others: seq<Key>, ns: seq<Json>)
    requires |keys| == |ms| && |others| == |ns|
  {
    forall i | 0 <= i < |ms| :: exists j | 0 <= j < |ns| :: others[j] == keys[i] && ns[j] == ms[i]
  }

  lemma IncludedFields(keys: seq<Key>, ms: seq<Json>, others: seq<Key>, ns: seq<Json>, x: Entry)
    requires Named(keys, |ms|) && Named(others, |ns|) && Includes(keys, ms, others, ns) && x in Fields(keys, ms)
    ensures x in Fields(others, ns)
  {
    hide Fields, Quoted, Print;
    FieldsAt(keys, ms);
    FieldsAt(others, ns);
    var i :| 0 <= i < |ms| && Fields(keys, ms)[i] == x;
    var j :| 0 <= j < |ns| && others[j] == keys[i] && ns[j] == ms[i];
    assert Fields(others, ns)[j] == x;
  }

  /** Two dictionaries with the same members print alike, in whatever order they were filled. */
  lemma OrderIsIrrelevant(keys: seq<Key>, ms: seq<Json>, others: seq<Key>, ns: seq<Json>)
    requires Named(keys, |ms|) && Named(others, |ns|)
    requires (forall i, j | 0 <= i < j < |keys| :: keys[i] != keys[j]) && forall i, j | 0 <= i < j < |others| :: others[i] != others[j]
    requires Includes(keys, ms, others, ns) && Includes(others, ns, keys, ms)
    ensures Canonical(Dict(keys, ms)) == Canonical(Dict(others, ns))
  {
    hide Fields, Quoted, SortEntries, Rising, Includes, Joined;
    var a, b := Fields(keys, ms), Fields(others, ns);
    FieldsAt(keys, ms);
    FieldsAt(others, ns);
    SortRises(a);
    SortRises(b);
    forall x ensures x in a <==> x in b {
      if x in a { IncludedFields(keys, ms, others, ns, x); }
      if x in b { IncludedFields(others, ns, keys, ms, x); }
    }
    RisingIsUnique(SortEntries(a), SortEntries(b));
  }

  // ----- What printed text does to the scanner -----

  /** The scanner after a balanced text of depth `d`: back where it was, with the peak it reached. */
  function Lift(s: Scanner, d: nat): Scanner {
    s.(peak := if d == 0 then s.peak else Max(s.peak, s.depth + d))
  }

  /** Read outside any string, from any depth, the text leaves the scanner as it was, `d` deep at most. */
  ghost predicate Renders(raw: Bytes, d: nat) {
    forall s: Scanner :: RendersFrom(s, raw, d)
  }

  ghost predicate RendersFrom(s: Scanner, raw: Bytes, d: nat) {
    !s.quoted && !s.escaped ==> Run(s, raw) == Lift(s, d)
  }

  lemma {:induction false} RunConcat(s: Scanner, a: Bytes, b: Bytes)
    ensures Run(s, a + b) == Run(Run(s, a), b)
  {
    if b == [] {
      assert a + b == a;
    } else {
      var m := |b| - 1;
      assert (a + b)[..|a + b| - 1] == a + b[..m];
      RunConcat(s, a, b[..m]);
    }
  }

  lemma RunOne(s: Scanner, b: Byte)
    ensures Run(s, [b]) == Step(s, b)
  {
    assert [b][..0] == [];
  }

  lemma RendersConcat(a: Bytes, da: nat, b: Bytes, db: nat)
    requires Renders(a, da) && Renders(b, db)
    ensures Renders(a + b, Max(da, db))
  {
    hide Run;
    forall s: Scanner | !s.quoted && !s.escaped ensures Run(s, a + b) == Lift(s, Max(da, db)) {
      RunConcat(s, a, b);
      assert RendersFrom(s, a, da) && RendersFrom(Lift(s, da), b, db);
    }
  }

  lemma RendersWrapped(open: Byte, raw: Bytes, close: Byte, d: nat)
    requires Opens(open) && Closes(close) && Renders(raw, d)
    ensures Renders([open] + raw + [close], d + 1)
  {
    hide Run;
    forall s: Scanner | !s.quoted && !s.escaped ensures Run(s, [open] + raw + [close]) == Lift(s, d + 1) {
      RunConcat(s, [open] + raw, [close]);
      RunConcat(s, [open], raw);
      RunOne(s, open);
      var t := Step(s, open);
      assert RendersFrom(t, raw, d);
      RunOne(Lift(t, d), close);
    }
  }

  predicate IsPlain(b: Byte) {
    b != QUOTE && !Opens(b) && !Closes(b)
  }

  lemma {:induction false} RendersPlain(raw: Bytes)
    requires forall i | 0 <= i < |raw| :: IsPlain(raw[i])
    ensures Renders(raw, 0)
  {
    forall s: Scanner ensures RendersFrom(s, raw, 0) {
      if raw != [] {
        RendersPlain(raw[..|raw| - 1]);
        assert RendersFrom(s, raw[..|raw| - 1], 0);
      }
    }
  }

  /** No character, however written, ends the string or leaves an escape open. */
  lemma EscapeStays(s: Scanner, c: char)
    requires s.quoted && !s.escaped
    ensures Run(s, Escape(c)) == s
  {
    var n, raw := c as int, Escape(c);
    if n == 34 || n == 92 || n < 32 {
      EscapedPair(s, raw);
    } else {
      Utf8Stays(s, c);
    }
  }

  lemma EscapedPair(s: Scanner, raw: Bytes)
    requires s.quoted && !s.escaped && |raw| >= 2 && raw[0] == BACKSLASH
    requires forall i | 2 <= i < |raw| :: raw[i] != QUOTE && raw[i] != BACKSLASH
    ensures Run(s, raw) == s
  {
    RunConcat(s, [raw[0]], raw[1..]);
    assert raw == [raw[0]] + raw[1..];
    RunOne(s, raw[0]);
    var t := s.(escaped := true);
    RunConcat(t, [raw[1]], raw[2..]);
    assert raw[1..] == [raw[1]] + raw[2..];
    RunOne(t, raw[1]);
    InertStays(s, raw[2..]);
  }

  lemma {:induction false} InertStays(s: Scanner, raw: Bytes)
    requires s.quoted && !s.escaped
    requires forall i | 0 <= i < |raw| :: raw[i] != QUOTE && raw[i] != BACKSLASH
    ensures Run(s, raw) == s
  {
    if raw != [] { InertStays(s, raw[..|raw| - 1]); }
  }

  /** Every byte of a multi-byte character is at least 0x80, so none is a quote or a backslash. */
  lemma Utf8Stays(s: Scanner, c: char)
    requires s.quoted && !s.escaped && c as int >= 32 && c as int != 34 && c as int != 92
    ensures Run(s, Utf8(c)) == s
  {
    InertStays(s, Utf8(c));
  }

  lemma {:induction false} EscapeAllStays(s: Scanner, text: string)
    requires s.quoted && !s.escaped
    ensures Run(s, EscapeAll(text)) == s
  {
    hide Escape;
    if text != "" {
      var m := |text| - 1;
      EscapeAllStays(s, text[..m]);
      RunConcat(s, EscapeAll(text[..m]), Escape(text[m]));
      EscapeStays(s, text[m]);
    }
  }

  lemma QuotedRenders(text: string)
    ensures Renders(Quoted(text), 0)
  {
    hide EscapeAll, Run;
    forall s: Scanner | !s.quoted && !s.escaped ensures Run(s, Quoted(text)) == Lift(s, 0) {
      RunConcat(s, [QUOTE] + EscapeAll(text), [QUOTE]);
      RunConcat(s, [QUOTE], EscapeAll(text));
      RunOne(s, QUOTE);
      var t := s.(quoted := true);
      EscapeAllStays(t, text);
      RunOne(t, QUOTE);
    }
  }

  predicate IsPlainChar(c: char) {
    c as int < 128 && c != '"' && c != '[' && c != ']' && c != '{' && c != '}'
  }

  lemma AsciiRenders(s: string)
    requires forall i | 0 <= i < |s| :: IsPlainChar(s[i])
    ensures Renders(Ascii(s), 0)
  {
    forall i | 0 <= i < |s| ensures IsPlain(Ascii(s)[i]) {
      PlainByte(s[i]);
    }
    RendersPlain(Ascii(s));
  }

  lemma PlainByte(c: char)
    requires IsPlainChar(c)
    ensures IsPlain((c as int % 256) as Byte)
  {
    var n := c as int;
    assert n != 34 && n != 91 && n != 93 && n != 123 && n != 125;
  }

  lemma DecimalRenders(n: int)
    ensures Renders(Decimal(n), 0)
  {
    hide Ascii, Renders;
    var digits := Names.Pad(1, if n < 0 then -n else n);
    Names.PadDenotes(1, if n < 0 then -n else n);
    AsciiRenders(digits);
    AsciiRenders("-" + digits);
  }

  // ----- Lists of members -----

  /** Text `i` renders at depth `ds[i]`. */
  ghost predicate RenderedAs(es: seq<Entry>, ds: seq<nat>) {
    |es| == |ds| && forall i | 0 <= i < |es| :: Renders(es[i].text, ds[i])
  }

  function Deepest(ds: seq<nat>): nat {
    if ds == [] then 0 else Max(ds[0], Deepest(ds[1..]))
  }

  lemma {:induction false} JoinedRenders(es: seq<Entry>, ds: seq<nat>)
    requires RenderedAs(es, ds)
    ensures Renders(Joined(es), Deepest(ds))
  {
    hide Renders;
    if es == [] {
      RendersPlain([]);
    } else if |es| == 1 {
      assert ds[1..] == [];
    } else {
      JoinedRenders(es[1..], ds[1..]);
      RendersPlain([44]);
      RendersConcat(es[0].text, ds[0], [44], 0);
      RendersConcat(es[0].text + [44], ds[0], Joined(es[1..]), Deepest(ds[1..]));
    }
  }

  /** Sorting entries sorts their depths along; the deepest stays the deepest. */
  lemma {:induction false} InsertRendered(es: seq<Entry>, ds: seq<nat>, e: Entry, d: nat) returns (out: seq<nat>)
    requires RenderedAs(es, ds) && Renders(e.text, d)
    ensures RenderedAs(InsertEntry(es, e), out) && Deepest(out) == Max(d, Deepest(ds))
  {
    hide Renders;
    if es == [] || !Names.Less(es[0].key, e.key) {
      out := [d] + ds;
      assert out[1..] == ds;
    } else {
      var rest := InsertRendered(es[1..], ds[1..], e, d);
      out := [ds[0]] + rest;
      assert out[1..] == rest;
    }
  }

  lemma {:induction false} SortRendered(es: seq<Entry>, ds: seq<nat>) returns (out: seq<nat>)
    requires RenderedAs(es, ds)
    ensures RenderedAs(SortEntries(es), out) && Deepest(out) == Deepest(ds)
  {
    hide Renders;
    if es == [] {
      out := [];
    } else {
      var rest := SortRendered(es[1..], ds[1..]);
      out := InsertRendered(SortEntries(es[1..]), rest, es[0], ds[0]);
    }
  }

  function Depths(ms: seq<Json>): (ds: seq<nat>)
    ensures |ds| == |ms|
  {
    if ms == [] then [] else [Depth(ms[0])] + Depths(ms[1..])
  }

  lemma {:induction false} DepthsDeepest(ms: seq<Json>)
    ensures Deepest(Depths(ms)) == DepthAll(ms)
  {
    if ms != [] { DepthsDeepest(ms[1..]); }
  }

  /** The canonical text of a value nests exactly as deep as the value, whatever its strings hold. */
  lemma {:induction false} PrintRenders(v: Json)
    requires Encodable(v)
    ensures Renders(Print(v), Depth(v))
  {
    hide Renders, Ascii, Decimal, Quoted, Joined, SortEntries, Items, Fields;
    if v.List? {
      ItemsRender(v.items);
      ListRenders(v.items);
    } else if v.Dict? {
      FieldsRender(v.keys, v.items);
      DictRenders(v.keys, v.items);
    } else {
      ScalarRenders(v);
    }
  }

  lemma WordsRender()
    ensures Renders(Ascii("null"), 0) && Renders(Ascii("true"), 0) && Renders(Ascii("false"), 0)
  {
    hide Renders, Ascii;
    AsciiRenders("null");
    AsciiRenders("true");
    AsciiRenders("false");
  }

  lemma NumeralRenders(numeral: Numeral)
    ensures Renders(Ascii(numeral), 0)
  {
    hide Renders, Ascii;
    AsciiRenders(numeral);
  }

  lemma ScalarRenders(v: Json)
    requires !IsContainer(v) && !v.Foreign?
    ensures Renders(Print(v), 0)
  {
    hide Renders, Ascii, Decimal, Quoted;
    match v
    case Null => WordsRender();
    case Bool(truth) => WordsRender();
    case Int(n) => DecimalRenders(n);
    case Float(_, numeral) => NumeralRenders(numeral);
    case Text(s) => QuotedRenders(s);
  }

  lemma ListRenders(ms: seq<Json>)
    requires RenderedAs(Items(ms), Depths(ms))
    ensures Renders(Print(List(ms)), 1 + DepthAll(ms))
  {
    hide Renders, Joined, Items, RenderedAs, Depths, DepthAll, Deepest;
    JoinedRenders(Items(ms), Depths(ms));
    DepthsDeepest(ms);
    RendersWrapped(91, Joined(Items(ms)), 93, DepthAll(ms));
  }

  lemma DictRenders(keys: seq<Key>, ms: seq<Json>)
    requires RenderedAs(Fields(keys, ms), Depths(ms))
    ensures Renders(Print(Dict(keys, ms)), 1 + DepthAll(ms))
  {
    hide Renders, Joined, SortEntries, Fields, RenderedAs, Depths, DepthAll, Deepest;
    var ds := SortRendered(Fields(keys, ms), Depths(ms));
    JoinedRenders(SortEntries(Fields(keys, ms)), ds);
    DepthsDeepest(ms);
    RendersWrapped(123, Joined(SortEntries(Fields(keys, ms))), 125, DepthAll(ms));
  }

  lemma {:induction false} ItemsRender(ms: seq<Json>)
    requires EncodableAll(ms)
    ensures RenderedAs(Items(ms), Depths(ms))
  {
    hide Renders;
    if ms != [] {
      PrintRenders(ms[0]);
      ItemsRender(ms[1..]);
    }
  }

  lemma {:induction false} FieldsRender(keys: seq<Key>, ms: seq<Json>)
    requires Named(keys, |ms|) && EncodableAll(ms)
    ensures RenderedAs(Fields(keys, ms), Depths(ms))
    decreases ms
  {
    hide Renders;
    if ms != [] {
      var key, text := keys[0].text, Print(ms[0]);
      PrintRenders(ms[0]);
      QuotedRenders(key);
      RendersPlain([58]);
      RendersConcat(Quoted(key), 0, [58], 0);
      RendersConcat(Quoted(key) + [58], 0, text, Depth(ms[0]));
      FieldsRender(keys[1..], ms[1..]);
    }
  }

  /**
   * The byte scanner ends at depth zero outside any string having peaked at the value's depth, so
   * on canonical text it gives the same answer as the walk over the value.
   */
  lemma ScannerMeasuresDepth(v: Json)
    requires Encodable(v)
    ensures Run(START, Canonical(v)) == Scanner(0, Depth(v), false, false)
  {
    hide Run, Print;
    PrintRenders(v);
    assert RendersFrom(START, Print(v), Depth(v));
    RunConcat(START, Print(v), [10]);
    RunOne(Run(START, Print(v)), 10);
  }

  /** Both gates on one value: `encode` refuses a value exactly when `parse` would refuse its text for depth. */
  method Gates(v: Json, maximum: nat) returns (shape: bool, text: bool)
    ensures shape <==> Encodable(v) && Depth(v) <= maximum
    ensures Encodable(v) ==> (text <==> shape)
  {
    shape := EncodingShape(v, maximum);
    text := DepthGate(Canonical(v), maximum);
    if Encodable(v) { ScannerMeasuresDepth(v); }
  }
}
