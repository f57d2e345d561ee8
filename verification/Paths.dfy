/** State paths and their text form: `crates/agentstategraph-core/src/path.rs`. */
module Paths {
  import opened Decimal

  const MAX_PATH_DEPTH: nat := 64
  const MAX_SEGMENT_LEN: nat := 4096

  datatype PathComponent = Key(key: string) | Index(index: nat)

  type StatePath = seq<PathComponent>

  datatype PathError =
    | MustStartWithSlash
    | EmptySegment
    | TooDeep(depth: nat)
    | SegmentTooLong(index: nat, len: nat)

  datatype ParseResult<+T> = Parsed(value: T) | Failed(error: PathError)

  // ----- bytes

  function Utf8Bytes(c: char): nat {
    if c as int < 0x80 then 1
    else if c as int < 0x800 then 2
    else if c as int < 0x10000 then 3
    else 4
  }

  /** `str::len`. */
  function Utf8Len(s: string): nat {
    if s == [] then 0 else Utf8Bytes(s[0]) + Utf8Len(s[1..])
  }

  // ----- splitting

  /** `str::split('/')`. */
  function Split(s: string): (r: seq<string>)
    ensures |r| > 0
  {
    if s == [] then [[]]
    else
      var rest := Split(s[1..]);
      if s[0] == '/' then [[]] + rest else [[s[0]] + rest[0]] + rest[1..]
  }

  lemma {:induction false} SplitAtSlash(a: string, b: string)
    ensures Split(a + "/" + b) == Split(a) + Split(b)
  {
    var s := a + "/" + b;
    if a == [] {
      assert s[1..] == b;
    } else {
      assert s[1..] == a[1..] + "/" + b;
      SplitAtSlash(a[1..], b);
    }
  }

  lemma {:induction false} SplitClean(k: string)
    requires '/' !in k
    ensures Split(k) == [k]
  {
    if k != [] {
      SplitClean(k[1..]);
      assert [k[0]] + k[1..] == k;
    }
  }

  lemma {:induction false} SplitHasNoSlash(s: string)
    ensures forall k :: k in Split(s) ==> '/' !in k
  {
    if s != [] {
      SplitHasNoSlash(s[1..]);
      var rest := Split(s[1..]);
      assert rest[0] in rest;
      assert forall k :: k in rest[1..] ==> k in rest;
    }
  }

  // ----- parsing

  function ParseSegment(i: nat, segment: string): ParseResult<PathComponent> {
    if segment == [] then Failed(EmptySegment)
    else if Utf8Len(segment) > MAX_SEGMENT_LEN then Failed(SegmentTooLong(i, Utf8Len(segment)))
    else
      match ParseUsize(segment)
      case Some(n) => Parsed(Index(n))
      case None => Parsed(Key(segment))
  }

  /** Segments in order, the first failure winning. */
  function ParseSegments(i: nat, segments: seq<string>): ParseResult<StatePath>
    decreases |segments|
  {
    if segments == [] then Parsed([])
    else
      match ParseSegment(i, segments[0])
      case Failed(e) => Failed(e)
      case Parsed(c) =>
        match ParseSegments(i + 1, segments[1..])
        case Failed(e) => Failed(e)
        case Parsed(cs) => Parsed([c] + cs)
  }

  /** `StatePath::parse`. */
  function Parse(s: string): ParseResult<StatePath> {
    if s == "" || s == "/" then Parsed([])
    else if s[0] != '/' then Failed(MustStartWithSlash)
    else
      match ParseSegments(0, Split(s[1..]))
      case Failed(e) => Failed(e)
      case Parsed(cs) => if |cs| > MAX_PATH_DEPTH then Failed(TooDeep(|cs|)) else Parsed(cs)
  }

  // ----- printing

  function Segment(c: PathComponent): string {
    match c
    case Key(k) => k
    case Index(i) => Dec(i)
  }

  function Components(p: StatePath): string {
    if p == [] then "" else Components(p[..|p| - 1]) + "/" + Segment(p[|p| - 1])
  }

  function Print(p: StatePath): string {
    if p == [] then "/" else Components(p)
  }

  /** `Display`: one write per component. */
  method Display(p: StatePath) returns (s: string)
    ensures s == Print(p)
  {
    if p == [] {
      return "/";
    }
    s := "";
    for n := 0 to |p|
      invariant s == Components(p[..n])
    {
      assert p[..n + 1][..n] == p[..n];
      s := s + "/" + Segment(p[n]);
    }
    assert p[..|p|] == p;
  }

  // ----- round trips

  /** What `Parse` can return. */
  predicate CanonicalComponent(c: PathComponent) {
    match c
    case Key(k) => k != [] && '/' !in k && Utf8Len(k) <= MAX_SEGMENT_LEN && ParseUsize(k).None?
    case Index(i) => i <= USIZE_MAX
  }

  predicate CanonicalPath(p: StatePath) {
    |p| <= MAX_PATH_DEPTH && forall i :: 0 <= i < |p| ==> CanonicalComponent(p[i])
  }

  lemma {:induction false} SegmentsAreCanonical(i: nat, segments: seq<string>)
    requires ParseSegments(i, segments).Parsed? && forall k :: k in segments ==> '/' !in k
    ensures forall c :: c in ParseSegments(i, segments).value ==> CanonicalComponent(c)
    decreases |segments|
  {
    if segments != [] {
      SegmentsAreCanonical(i + 1, segments[1..]);
      assert segments[0] in segments;
    }
  }

  lemma ParseIsCanonical(s: string)
    requires Parse(s).Parsed?
    ensures CanonicalPath(Parse(s).value)
  {
    if s != "" && s != "/" {
      SplitHasNoSlash(s[1..]);
      SegmentsAreCanonical(0, Split(s[1..]));
    }
  }

  function Segments(p: StatePath): (r: seq<string>)
    ensures |r| == |p| && forall i :: 0 <= i < |p| ==> r[i] == Segment(p[i])
  {
    seq(|p|, i requires 0 <= i < |p| => Segment(p[i]))
  }

  lemma {:induction false} DigitsHaveNoSlash(n: nat)
    ensures '/' !in Dec(n)
  {
    assert AllDigits(Dec(n));
  }

  lemma SegmentsLast(p: StatePath)
    requires p != []
    ensures Segments(p) == Segments(p[..|p| - 1]) + [Segment(p[|p| - 1])]
  {
    var r := Segments(p[..|p| - 1]) + [Segment(p[|p| - 1])];
    forall i | 0 <= i < |p| ensures Segments(p)[i] == r[i] {
      assert i < |p| - 1 ==> p[..|p| - 1][i] == p[i];
    }
  }

  lemma {:induction false} ComponentsStart(p: StatePath)
    requires p != []
    ensures |Components(p)| > 0 && Components(p)[0] == '/'
  {
    if |p| > 1 { ComponentsStart(p[..|p| - 1]); }
  }

  /** Splitting the printed components gives them back. */
  lemma {:induction false} SplitComponents(p: StatePath)
    requires p != [] && forall i :: 0 <= i < |p| ==> '/' !in Segment(p[i])
    ensures |Components(p)| > 0 && Split(Components(p)[1..]) == Segments(p)
  {
    var n := |p| - 1;
    var init, last := p[..n], Segment(p[n]);
    SegmentsLast(p);
    SplitClean(last);
    AfterFirst(Components(init), last);
    if init != [] {
      ComponentsStart(init);
      SplitComponents(init);
      SplitAtSlash(Components(init)[1..], last);
    }
  }

  lemma AfterFirst(a: string, b: string)
    ensures (a + "/" + b)[1..] == if a == "" then b else a[1..] + "/" + b
  {
  }

  function Pow10(k: nat): nat {
    if k == 0 then 1 else 10 * Pow10(k - 1)
  }

  lemma Pow10Step(k: nat)
    ensures Pow10(k + 5) == 100_000 * Pow10(k)
  {
    assert Pow10(k + 2) == 100 * Pow10(k);
    assert Pow10(k + 4) == 100 * Pow10(k + 2);
  }

  lemma {:induction false} DecLength(n: nat, k: nat)
    requires k > 0 && n < Pow10(k)
    ensures |Dec(n)| <= k
  {
    if n >= 10 {
      DecLength(n / 10, k - 1);
    }
  }

  lemma {:induction false} DigitBytes(s: string)
    requires AllDigits(s)
    ensures Utf8Len(s) == |s|
  {
    if s != [] {
      DigitBytes(s[1..]);
    }
  }

  lemma ParsePrintedSegment(i: nat, c: PathComponent)
    requires CanonicalComponent(c)
    ensures ParseSegment(i, Segment(c)) == Parsed(c)
  {
    match c
    case Key(_) =>
    case Index(n) =>
      ParsePrinted(n);
      Pow10Step(0);
      Pow10Step(5);
      Pow10Step(10);
      Pow10Step(15);
      DecLength(n, 20);
      DigitBytes(Dec(n));
  }

  ghost predicate ReadsBack(c: PathComponent) {
    forall i: nat :: ParseSegment(i, Segment(c)) == Parsed(c)
  }

  lemma {:induction false} ParsePrintedSegments(i: nat, p: StatePath)
    requires forall j :: 0 <= j < |p| ==> ReadsBack(p[j])
    ensures ParseSegments(i, Segments(p)) == Parsed(p)
    decreases |p|
  {
    if p != [] {
      ParsePrintedSegments(i + 1, p[1..]);
      SegmentsFirst(p);
      assert ReadsBack(p[0]);
      ParseFirst(i, Segments(p), p[0], p[1..]);
      assert [p[0]] + p[1..] == p;
    }
  }

  lemma SegmentsFirst(p: StatePath)
    requires p != []
    ensures Segments(p)[0] == Segment(p[0]) && Segments(p)[1..] == Segments(p[1..])
  {
  }

  lemma ParseFirst(i: nat, s: seq<string>, c: PathComponent, rest: StatePath)
    requires s != [] && s[0] == Segment(c) && ReadsBack(c) && ParseSegments(i + 1, s[1..]) == Parsed(rest)
    ensures ParseSegments(i, s) == Parsed([c] + rest)
  {
  }

  lemma CanonicalRoundTrip(p: StatePath)
    requires CanonicalPath(p) && p != []
    ensures Parse(Print(p)) == Parsed(p)
  {
    forall i | 0 <= i < |p| ensures '/' !in Segment(p[i]) {
      assert CanonicalComponent(p[i]);
      if p[i].Index? { DigitsHaveNoSlash(p[i].index); }
    }
    forall j | 0 <= j < |p| ensures ReadsBack(p[j]) {
      forall i: nat ensures ParseSegment(i, Segment(p[j])) == Parsed(p[j]) {
        ParsePrintedSegment(i, p[j]);
      }
    }
    SplitComponents(p);
    ComponentsStart(p);
    ParsePrintedSegments(0, p);
    SegmentsNonEmpty(p);
  }

  /** Printing then parsing is the identity exactly on the paths `Parse` can return. */
  lemma PrintThenParse(p: StatePath)
    ensures Parse(Print(p)) == Parsed(p) <==> CanonicalPath(p)
  {
    if CanonicalPath(p) && p != [] {
      CanonicalRoundTrip(p);
    }
    if Parse(Print(p)) == Parsed(p) {
      ParseIsCanonical(Print(p));
    }
  }

  lemma SegmentsNonEmpty(p: StatePath)
    requires CanonicalPath(p) && p != []
    ensures Print(p) != "/" && Print(p) != ""
  {
    var last := p[|p| - 1];
    assert CanonicalComponent(last);
    assert |Segment(last)| > 0;
    assert |Print(p)| >= 2;
  }

  /** Printing an accepted path and parsing it again changes nothing. */
  lemma ParsePrintParse(s: string)
    requires Parse(s).Parsed?
    ensures Parse(Print(Parse(s).value)) == Parse(s)
  {
    ParseIsCanonical(s);
    PrintThenParse(Parse(s).value);
  }

  lemma NumberHasNoSlash(s: string)
    requires ParseUsize(s).Some?
    ensures '/' !in s
  {
    if s[0] == '+' {
      assert s == [s[0]] + s[1..] && AllDigits(s[1..]);
    }
  }

  /** A segment read as an index prints as the plain number: "/007" and "/+7" become "/7". */
  lemma IndexNormalises(segment: string)
    requires ParseUsize(segment).Some? && Utf8Len(segment) <= MAX_SEGMENT_LEN
    ensures Parse("/" + segment) == Parsed([Index(ParseUsize(segment).value)])
    ensures Print(Parse("/" + segment).value) == "/" + Dec(ParseUsize(segment).value)
  {
    NumberHasNoSlash(segment);
    ParseSingle(segment);
    PrintSingle(Index(ParseUsize(segment).value));
  }

  lemma ParseSingle(segment: string)
    requires '/' !in segment && segment != "" && ParseSegment(0, segment).Parsed?
    ensures Parse("/" + segment) == Parsed([ParseSegment(0, segment).value])
  {
    SplitClean(segment);
    assert ("/" + segment)[1..] == segment;
    ParseOne(0, segment);
  }

  lemma PrintSingle(c: PathComponent)
    ensures Print([c]) == "/" + Segment(c)
  {
    assert [c][..0] == [];
    assert Components([c][..0]) == "";
  }

  lemma ParseOne(i: nat, segment: string)
    requires ParseSegment(i, segment).Parsed?
    ensures ParseSegments(i, [segment]) == Parsed([ParseSegment(i, segment).value])
  {
    var rest := [segment][1..];
    assert rest == [] && ParseSegments(i + 1, rest) == Parsed([]);
    assert [ParseSegment(i, segment).value] + [] == [ParseSegment(i, segment).value];
  }

  // ----- what is refused

  /** Two bytes of UTF-8 carry 11 bits, three carry 16; one more byte is taken only when needed. */
  lemma Utf8IsShortest(c: char)
    ensures Utf8Bytes(c) <= 1 <==> c as int < 128
    ensures Utf8Bytes(c) <= 2 <==> c as int < 2048
    ensures Utf8Bytes(c) <= 3 <==> c as int < 65536
    ensures 1 <= Utf8Bytes(c) <= 4
  {
  }

  lemma {:induction false} Utf8Concat(a: string, b: string)
    ensures Utf8Len(a + b) == Utf8Len(a) + Utf8Len(b)
  {
    if a == "" {
      assert a + b == b;
    } else {
      assert (a + b)[1..] == a[1..] + b;
      Utf8Concat(a[1..], b);
    }
  }

  predicate GoodSegment(segment: string) {
    segment != "" && Utf8Len(segment) <= 4096
  }

  /** Everything before position `j` is good, and it is not. */
  ghost predicate FirstBad(segments: seq<string>, j: nat) {
    j < |segments| && !GoodSegment(segments[j]) && forall k :: 0 <= k < j ==> GoodSegment(segments[k])
  }

  function SegmentError(segments: seq<string>, j: nat): PathError
    requires j < |segments|
  {
    if segments[j] == "" then EmptySegment else SegmentTooLong(j, Utf8Len(segments[j]))
  }

  /** The error is that of the first bad segment. */
  ghost predicate NamesFirstBad(segments: seq<string>, error: PathError) {
    exists j: nat :: FirstBad(segments, j) && error == SegmentError(segments, j)
  }

  lemma FirstBadNamed(segments: seq<string>, j: nat, error: PathError)
    requires FirstBad(segments, j) && error == SegmentError(segments, j)
    ensures NamesFirstBad(segments, error)
  {
  }

  lemma {:induction false} SegmentsParsed(i: nat, segments: seq<string>)
    requires forall k :: 0 <= k < |segments| ==> GoodSegment(segments[k])
    ensures ParseSegments(i, segments).Parsed? && |ParseSegments(i, segments).value| == |segments|
    decreases |segments|
  {
    if segments != [] {
      assert GoodSegment(segments[0]);
      assert forall k :: 0 <= k < |segments[1..]| ==> segments[1..][k] == segments[k + 1];
      SegmentsParsed(i + 1, segments[1..]);
    }
  }

  lemma {:induction false} SegmentRefused(i: nat, segments: seq<string>, j: nat)
    requires FirstBad(segments, j)
    ensures ParseSegments(i, segments) ==
      Failed(if segments[j] == "" then EmptySegment else SegmentTooLong(i + j, Utf8Len(segments[j])))
    decreases |segments|
  {
    if j > 0 {
      assert GoodSegment(segments[0]);
      assert forall k :: 0 <= k < |segments[1..]| ==> segments[1..][k] == segments[k + 1];
      SegmentRefused(i + 1, segments[1..], j - 1);
    }
  }

  lemma {:induction false} SomeFirstBad(segments: seq<string>, n: nat) returns (j: nat)
    requires n < |segments| && !GoodSegment(segments[n])
    ensures FirstBad(segments, j)
    decreases n
  {
    if k: nat :| k < n && !GoodSegment(segments[k]) {
      j := SomeFirstBad(segments, k);
    } else {
      j := n;
    }
  }

  /**
   A text is accepted exactly when it is empty, or a slash, or a slash and at most 64 segments
   that are not empty and not longer than 4096 bytes.
   */
  lemma AcceptsExactly(s: string)
    ensures Parse(s).Parsed? <==>
      || s == "" || s == "/"
      || (s[0] == '/' && |Split(s[1..])| <= 64 &&
          forall k :: 0 <= k < |Split(s[1..])| ==> GoodSegment(Split(s[1..])[k]))
  {
    if s != "" && s != "/" && s[0] == '/' {
      var segments := Split(s[1..]);
      if n: nat :| n < |segments| && !GoodSegment(segments[n]) {
        var j := SomeFirstBad(segments, n);
        SegmentRefused(0, segments, j);
      } else {
        SegmentsParsed(0, segments);
      }
    }
  }

  /** A refusal names the first bad segment, or how deep an otherwise good path is. */
  lemma RefusalIsExact(s: string)
    requires Parse(s).Failed?
    ensures Parse(s).error.MustStartWithSlash? <==> s[0] != '/'
    ensures s[0] == '/' ==> var segments := Split(s[1..]);
      if Parse(s).error.TooDeep?
      then Parse(s).error.depth == |segments| > 64 && forall k :: 0 <= k < |segments| ==> GoodSegment(segments[k])
      else NamesFirstBad(segments, Parse(s).error)
  {
    if s[0] == '/' {
      var segments := Split(s[1..]);
      if n: nat :| n < |segments| && !GoodSegment(segments[n]) {
        var j := SomeFirstBad(segments, n);
        SegmentRefused(0, segments, j);
        FirstBadNamed(segments, j, Parse(s).error);
      } else {
        SegmentsParsed(0, segments);
      }
    }
  }
}
