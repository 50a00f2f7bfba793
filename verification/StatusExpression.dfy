/** Expected HTTP status expressions: internal/bypass/target.go. */
module StatusExpression {
  import opened Base
  import opened Sorting
  import opened Text

  const MAX_BYTES: nat := 64

  const MAX_TERMS: nat := 32

  datatype Range = Range(first: int, last: int)

  /** Length in UTF-8 of one character, and of a string. */
  function Utf8Size(c: char): nat {
    var n := c as int;
    if n < 0x80 then 1 else if n < 0x800 then 2 else if n < 0x10000 then 3 else 4
  }

  function Bytes(s: string): nat { if s == "" then 0 else Utf8Size(s[0]) + Bytes(s[1..]) }

  // ----- parsing -----

  function Value(t: string): int
    requires AllDigits(t)
  {
    if t == "" then 0 else 10 * Value(t[..|t| - 1]) + (t[|t| - 1] as int - '0' as int)
  }

  /** strconv.Atoi, which takes a sign. */
  function Atoi(t: string): Option<int> {
    var signed := t != "" && (t[0] == '+' || t[0] == '-');
    var body := if signed then t[1..] else t;
    if body == "" || !AllDigits(body) then None
    else Some(if signed && t[0] == '-' then -Value(body) else Value(body))
  }

  function ParseHttpStatus(t: string): Option<int> {
    if Bytes(t) != 3 then None
    else
      var n := Atoi(t);
      if n.Some? && 100 <= n.value <= 599 then n else None
  }

  function ParseTrimmed(part: string): Option<Range> {
    if part == "" then None
    else
      var bounds := Split(part, '-');
      var first := ParseHttpStatus(Trim(bounds[0]));
      if |bounds| > 2 || first.None? then None
      else if |bounds| == 1 then Some(Range(first.value, first.value))
      else
        var last := ParseHttpStatus(Trim(bounds[1]));
        if last.None? || last.value < first.value then None else Some(Range(first.value, last.value))
  }

  function ParseTerm(part: string): Option<Range> { ParseTrimmed(Trim(part)) }

  function Slashed(s: string): (r: string)
    ensures |r| == |s|
  {
    seq(|s|, i requires 0 <= i < |s| => if s[i] == ',' then '/' else s[i])
  }

  /** The terms as written, between commas and slashes. */
  function Parts(x: string): seq<string> { Split(Slashed(Trim(x)), '/') }

  predicate Fits(x: string) { Trim(x) != "" && Bytes(Trim(x)) <= MAX_BYTES && |Parts(x)| <= MAX_TERMS }

  predicate AllParse(parts: seq<string>) { forall i :: 0 <= i < |parts| ==> ParseTerm(parts[i]).Some? }

  function Ranges(parts: seq<string>): (r: seq<Range>)
    requires AllParse(parts)
    ensures |r| == |parts| && forall i :: 0 <= i < |r| ==> r[i] == ParseTerm(parts[i]).value
  {
    seq(|parts|, i requires 0 <= i < |parts| => ParseTerm(parts[i]).value)
  }

  predicate RangeLe(a: Range, b: Range) { a.first < b.first || (a.first == b.first && a.last <= b.last) }

  predicate GapBefore(s: seq<Range>, i: int)
    requires 0 < i < |s|
  {
    s[i - 1].last < s[i].first
  }

  predicate Separate(s: seq<Range>) { forall i :: 0 < i < |s| ==> GapBefore(s, i) }

  // ----- printing -----

  predicate ValidRange(r: Range) { 100 <= r.first <= r.last <= 599 }

  function Show(r: Range): string
    requires ValidRange(r)
  {
    if r.first == r.last then Decimal(r.first) else Decimal(r.first) + "-" + Decimal(r.last)
  }

  predicate AllValid(s: seq<Range>) { forall i :: 0 <= i < |s| ==> ValidRange(s[i]) }

  function ShowAll(s: seq<Range>): (r: seq<string>)
    requires AllValid(s)
    ensures |r| == |s| && forall i :: 0 <= i < |s| ==> r[i] == Show(s[i])
  {
    seq(|s|, i requires 0 <= i < |s| => Show(s[i]))
  }

  lemma ParsedAreValid(parts: seq<string>)
    requires AllParse(parts)
    ensures AllValid(Ranges(parts))
  {}

  lemma RangesAreOrdered(dom: set<Range>)
    ensures Orders(RangeLe, dom)
  {}

  lemma SortRanges(s: seq<Range>)
    ensures Sorted(RangeLe, Sort(RangeLe, s)) && multiset(Sort(RangeLe, s)) == multiset(s) && |Sort(RangeLe, s)| == |s|
    ensures AllValid(s) ==> AllValid(Sort(RangeLe, s))
  {
    var dom := set r | r in s;
    RangesAreOrdered(dom);
    SortSorts(RangeLe, s, dom);
    var sorted := Sort(RangeLe, s);
    assert |sorted| == |multiset(sorted)| == |s|;
    if AllValid(s) {
      forall i | 0 <= i < |sorted| ensures ValidRange(sorted[i]) {
        assert sorted[i] in multiset(sorted);
        assert sorted[i] in s;
      }
    }
  }

  ghost predicate Accepted(x: string) { Fits(x) && AllParse(Parts(x)) && Separate(Sort(RangeLe, Ranges(Parts(x)))) }

  /** The normal form of an accepted expression. */
  ghost function Canonical(x: string): string
    requires Accepted(x)
  {
    ParsedAreValid(Parts(x));
    SortRanges(Ranges(Parts(x)));
    Join(ShowAll(Sort(RangeLe, Ranges(Parts(x)))), '/')
  }

  method NormalizeStatusExpression(x: string) returns (r: Option<string>)
    ensures r.Some? <==> Accepted(x)
    ensures r.Some? ==> r.value == Canonical(x)
  {
    hide ParseTerm, RangeLe, Sort, Trim, Bytes, Split, ValidRange, Show;
    var value := Trim(x);
    if value == "" || Bytes(value) > MAX_BYTES { return None; }
    var parts := Split(Slashed(value), '/');
    if |parts| == 0 || |parts| > MAX_TERMS { return None; }
    var ranges: seq<Range> := [];
    for i := 0 to |parts|
      invariant AllParse(parts[..i]) && ranges == Ranges(parts[..i])
    {
      assert parts[..i + 1] == parts[..i] + [parts[i]];
      var range := ParseTerm(parts[i]);
      if range.None? { return None; }
      ranges := ranges + [range.value];
    }
    assert parts[..|parts|] == parts;
    ParsedAreValid(parts);
    SortRanges(ranges);
    ranges := Sort(RangeLe, ranges);
    for i := 1 to |ranges|
      invariant forall j :: 0 < j < i ==> GapBefore(ranges, j)
    {
      if ranges[i].first <= ranges[i - 1].last { assert !GapBefore(ranges, i); return None; }
    }
    var canonical: seq<string> := [];
    for i := 0 to |ranges|
      invariant canonical == ShowAll(ranges[..i])
    {
      assert AllValid(ranges[..i + 1]) && ranges[..i + 1] == ranges[..i] + [ranges[i]];
      canonical := canonical + [Show(ranges[i])];
    }
    assert ranges[..|ranges|] == ranges;
    r := Some(Join(canonical, '/'));
  }

  // ----- texts of numbers -----

  lemma ThreeDigits(n: int)
    requires 100 <= n <= 599
    ensures Decimal(n) == [Digit(n / 100), Digit(n / 10 % 10), Digit(n % 10)] && AllDigits(Decimal(n))
  {
    DecimalShape(n);
    assert Decimal(n / 100) == [Digit(n / 100)];
    assert Decimal(n / 10) == Decimal(n / 100) + [Digit(n / 10 % 10)];
  }

  lemma {:induction false} PlainBytes(s: string)
    ensures Bytes(s) >= |s|
    ensures (forall i :: 0 <= i < |s| ==> s[i] < 128 as char) ==> Bytes(s) == |s|
  {
    if s != "" { PlainBytes(s[1..]); }
  }

  lemma DigitsAreWorth(t: string)
    requires AllDigits(t) && |t| <= 3
    ensures |t| < 3 ==> 0 <= Value(t) < 100
    ensures |t| == 3 ==> Value(t) == 100 * (t[0] as int - 48) + 10 * (t[1] as int - 48) + (t[2] as int - 48)
  {}

  lemma DigitText(d: nat)
    requires d < 10
    ensures Digit(d) as int == 48 + d
  {}

  lemma StatusHasThreeDigits(t: string)
    requires ParseHttpStatus(t).Some?
    ensures AllDigits(t) && |t| == 3 && ParseHttpStatus(t) == Some(Value(t)) && 100 <= Value(t) <= 599
  {
    hide Bytes, Value;
    PlainBytes(t);
    assert t != "";
    if t[0] == '+' || t[0] == '-' {
      DigitsAreWorth(t[1..]);
      assert false;
    }
    assert forall i :: 0 <= i < |t| ==> t[i] < 128 as char;
  }

  lemma DigitsAreRead(t: string)
    requires AllDigits(t) && |t| == 3 && 100 <= Value(t) <= 599
    ensures ParseHttpStatus(t) == Some(Value(t))
  {
    hide Bytes, Value;
    PlainBytes(t);
    assert forall i :: 0 <= i < |t| ==> t[i] < 128 as char;
  }

  lemma ValueOfDecimal(n: int)
    requires 100 <= n <= 599
    ensures AllDigits(Decimal(n)) && |Decimal(n)| == 3 && Value(Decimal(n)) == n
  {
    hide Decimal, Digit, Value;
    ThreeDigits(n);
    DigitText(n / 100); DigitText(n / 10 % 10); DigitText(n % 10);
    DigitsAreWorth(Decimal(n));
  }

  lemma DigitsOf(a: int, b: int, c: int)
    requires 0 <= a < 10 && 0 <= b < 10 && 0 <= c < 10
    ensures var n := 100 * a + 10 * b + c; n / 100 == a && n / 10 % 10 == b && n % 10 == c
  {}

  lemma DecimalOfValue(t: string)
    requires AllDigits(t) && |t| == 3 && 100 <= Value(t) <= 599
    ensures t == Decimal(Value(t))
  {
    hide Decimal, Digit, Value;
    var n := Value(t);
    DigitsAreWorth(t);
    ThreeDigits(n);
    var a, b, c := t[0] as int - 48, t[1] as int - 48, t[2] as int - 48;
    DigitsOf(a, b, c);
    DigitText(a); DigitText(b); DigitText(c);
    assert t == [Digit(a), Digit(b), Digit(c)];
  }

  /** A status is parsed from its three digits and from nothing else. */
  lemma StatusTexts(t: string, n: int)
    ensures ParseHttpStatus(t) == Some(n) <==> 100 <= n <= 599 && t == Decimal(n)
  {
    hide ParseHttpStatus, Value, Decimal;
    if ParseHttpStatus(t) == Some(n) {
      StatusHasThreeDigits(t);
      DecimalOfValue(t);
    }
    if 100 <= n <= 599 && t == Decimal(n) {
      ValueOfDecimal(n);
      DigitsAreRead(t);
    }
  }

  lemma DigitsStay(t: string)
    requires t != "" && !IsSpace(t[0]) && !IsSpace(t[|t| - 1])
    ensures Trim(t) == t
  {}

  /** What is printed: only digits and dashes, digits at both ends, and it parses to what it shows. */
  lemma ShownIsRead(r: Range)
    requires ValidRange(r)
    ensures ParseTerm(Show(r)) == Some(r)
    ensures |Show(r)| == if r.first == r.last then 3 else 7
    ensures forall i :: 0 <= i < |Show(r)| ==> '0' <= Show(r)[i] <= '9' || Show(r)[i] == '-'
    ensures '0' <= Show(r)[0] <= '9' && '0' <= Show(r)[|Show(r)| - 1] <= '9'
  {
    hide Decimal, Digit, Split, Trim, ParseHttpStatus;
    var a, b := Decimal(r.first), Decimal(r.last);
    ThreeDigits(r.first);
    ThreeDigits(r.last);
    StatusTexts(a, r.first);
    StatusTexts(b, r.last);
    DigitsStay(a);
    DigitsStay(b);
    DigitsStay(Show(r));
    SplitWhole(a, '-');
    if r.first != r.last {
      SplitWhole(b, '-');
      SplitFirst(a, '-', b);
    }
  }

  // ----- length -----

  /** Length of the parts with their separators. */
  function Total(parts: seq<string>): int { if parts == [] then -1 else |parts[0]| + 1 + Total(parts[1..]) }

  lemma {:induction false} SplitTotal(s: string, c: char)
    ensures Total(Split(s, c)) == |s|
  {
    if s != "" {
      var rest := Split(s[1..], c);
      SplitTotal(s[1..], c);
      if s[0] == c {
        assert ([""] + rest)[1..] == rest;
      } else {
        assert ([[s[0]] + rest[0]] + rest[1..])[1..] == rest[1..];
      }
    }
  }

  lemma {:induction false} JoinTotal(parts: seq<string>, c: char)
    requires parts != []
    ensures |Join(parts, c)| == Total(parts)
  {
    if |parts| > 1 { JoinTotal(parts[1..], c); } else { assert parts[1..] == []; }
  }

  function Width(r: Range): int { if r.first == r.last then 4 else 8 }

  function Widths(s: seq<Range>): int { if s == [] then -1 else Width(s[0]) + Widths(s[1..]) }

  lemma {:induction false} InsertWidth(x: Range, s: seq<Range>)
    ensures Widths(Insert(RangeLe, x, s)) == Width(x) + Widths(s)
  {
    if s == [] {
      assert [x][1..] == [];
    } else if RangeLe(x, s[0]) {
      assert ([x] + s)[1..] == s;
    } else {
      InsertWidth(x, s[1..]);
      assert ([s[0]] + Insert(RangeLe, x, s[1..]))[1..] == Insert(RangeLe, x, s[1..]);
    }
  }

  lemma {:induction false} SortWidth(s: seq<Range>)
    ensures Widths(Sort(RangeLe, s)) == Widths(s)
  {
    if s != [] {
      SortWidth(s[1..]);
      InsertWidth(s[0], Sort(RangeLe, s[1..]));
    }
  }

  lemma {:induction false} ShownWidth(s: seq<Range>)
    requires AllValid(s)
    ensures Total(ShowAll(s)) == Widths(s)
  {
    hide Show, ValidRange;
    if s != [] {
      ShownIsRead(s[0]);
      ShownWidth(s[1..]);
      assert ShowAll(s)[1..] == ShowAll(s[1..]);
    }
  }

  /** A term is at least as long as what is printed for it. */
  lemma TermIsLong(part: string)
    requires ParseTerm(part).Some?
    ensures Width(ParseTerm(part).value) <= |part| + 1
  {
    hide ParseHttpStatus, Trim, Decimal;
    var t := Trim(part);
    TrimShortens(part);
    var bounds := Split(t, '-');
    SplitTotal(t, '-');
    StatusTexts(Trim(bounds[0]), ParseTerm(part).value.first);
    TrimShortens(bounds[0]);
    ThreeDigits(ParseTerm(part).value.first);
    if |bounds| == 2 {
      assert bounds[1..] == [bounds[1]] && bounds[1..][1..] == [];
      assert Total(bounds[1..]) == |bounds[1]|;
      StatusTexts(Trim(bounds[1]), ParseTerm(part).value.last);
      TrimShortens(bounds[1]);
      ThreeDigits(ParseTerm(part).value.last);
    } else {
      assert bounds[1..] == [];
    }
  }

  lemma {:induction false} TermsAreLong(parts: seq<string>)
    requires AllParse(parts)
    ensures Widths(Ranges(parts)) <= Total(parts)
  {
    hide ParseTerm, Width;
    if parts != [] {
      TermIsLong(parts[0]);
      TermsAreLong(parts[1..]);
      assert Ranges(parts)[1..] == Ranges(parts[1..]);
    }
  }

  /** The normal form is never longer, in characters or in bytes. */
  lemma NeverLonger(x: string)
    requires Accepted(x)
    ensures |Canonical(x)| <= |Trim(x)| <= |x|
    ensures Bytes(Canonical(x)) <= Bytes(Trim(x))
  {
    hide Trim, Split, Sort, ParseTerm, Show, ValidRange, Widths, Total, Bytes, RangeLe;
    var parts := Parts(x);
    var ranges := Ranges(parts);
    ParsedAreValid(parts);
    SortRanges(ranges);
    var sorted := Sort(RangeLe, ranges);
    SplitTotal(Slashed(Trim(x)), '/');
    TermsAreLong(parts);
    SortWidth(ranges);
    ShownWidth(sorted);
    JoinTotal(ShowAll(sorted), '/');
    TrimShortens(x);
    ShownIsPlain(sorted);
    PlainBytes(Canonical(x));
    PlainBytes(Trim(x));
  }

  predicate PlainText(t: string) {
    t != "" && '0' <= t[0] <= '9' && '0' <= t[|t| - 1] <= '9' && forall i :: 0 <= i < |t| ==>
      '0' <= t[i] <= '9' || t[i] == '-' || t[i] == '/'
  }

  lemma PlainJoins(a: string, b: string)
    requires PlainText(a) && PlainText(b)
    ensures PlainText(a + ['/'] + b)
  {}

  lemma {:induction false} ShownIsPlain(s: seq<Range>)
    requires s != [] && AllValid(s)
    ensures PlainText(Join(ShowAll(s), '/'))
  {
    hide Show, ValidRange, PlainText;
    assert PlainText(Show(s[0])) by { ShownAreDigits(s[0]); }
    if |s| > 1 {
      ShownIsPlain(s[1..]);
      assert ShowAll(s)[1..] == ShowAll(s[1..]);
      PlainJoins(Show(s[0]), Join(ShowAll(s[1..]), '/'));
    }
  }

  lemma ShownAreDigits(r: Range)
    requires ValidRange(r)
    ensures PlainText(Show(r))
  {
    hide Show;
    ShownIsRead(r);
  }

  // ----- the normal form -----

  lemma SortedStays(s: seq<Range>)
    requires Sorted(RangeLe, s)
    ensures Sort(RangeLe, s) == s
  {}

  lemma ShownParts(s: seq<Range>)
    requires s != [] && AllValid(s)
    ensures var y := Join(ShowAll(s), '/');
      Trim(y) == y && Parts(y) == ShowAll(s) && AllParse(Parts(y)) && Ranges(Parts(y)) == s
  {
    hide Show, ValidRange, ParseTerm, Split, Trim;
    var y := Join(ShowAll(s), '/');
    ShownIsPlain(s);
    DigitsStay(y);
    assert Slashed(y) == y;
    forall i | 0 <= i < |s| ensures Lacks(ShowAll(s)[i], '/') && ParseTerm(ShowAll(s)[i]) == Some(s[i]) {
      ShownIsRead(s[i]);
    }
    SplitInvertsJoin(ShowAll(s), '/');
  }

  /** Normalizing the normal form changes nothing. */
  lemma NormalFormIsFixed(x: string)
    requires Accepted(x)
    ensures Accepted(Canonical(x)) && Canonical(Canonical(x)) == Canonical(x)
  {
    hide Trim, Split, Sort, ParseTerm, Show, ValidRange, RangeLe, Bytes;
    var ranges := Ranges(Parts(x));
    ParsedAreValid(Parts(x));
    SortRanges(ranges);
    var sorted := Sort(RangeLe, ranges);
    ShownParts(sorted);
    ShownIsPlain(sorted);
    NeverLonger(x);
    SortedStays(sorted);
  }

  // ----- what the normal form does not depend on -----

  function RangeOr(t: string): Range {
    var r := ParseTrimmed(t);
    if r.Some? then r.value else Range(0, 0)
  }

  lemma RangesOfTrimmed(parts: seq<string>)
    ensures AllParse(parts) <==> forall t | t in Map(Trim, parts) :: ParseTrimmed(t).Some?
    ensures AllParse(parts) ==> Ranges(parts) == Map(RangeOr, Map(Trim, parts))
  {}

  /** The order of the terms, the choice between comma and slash and the space around terms do not matter. */
  lemma SameTermsSameForm(x: string, y: string)
    requires Bytes(Trim(x)) <= MAX_BYTES && Bytes(Trim(y)) <= MAX_BYTES
    requires multiset(Map(Trim, Parts(x))) == multiset(Map(Trim, Parts(y)))
    ensures Accepted(x) <==> Accepted(y)
    ensures Accepted(x) ==> Canonical(x) == Canonical(y)
  {
    hide Trim, Bytes, RangeLe, Sort, Parts, ParseTrimmed;
    var a, b := Map(Trim, Parts(x)), Map(Trim, Parts(y));
    assert |multiset(a)| == |a| && |multiset(b)| == |b|;
    forall t ensures t in a <==> t in b { assert t in multiset(a) <==> t in multiset(b); }
    RangesOfTrimmed(Parts(x));
    RangesOfTrimmed(Parts(y));
    EmptyIsRefused(x);
    EmptyIsRefused(y);
    if AllParse(Parts(x)) {
      MapKeepsPermutation(RangeOr, a, b);
      var r, s := Ranges(Parts(x)), Ranges(Parts(y));
      var dom := (set e | e in r) + (set e | e in s);
      RangesAreOrdered(dom);
      SortDecidesPermutation(RangeLe, r, s, dom);
    }
  }

  lemma EmptyIsRefused(x: string)
    ensures Trim(x) == "" ==> !AllParse(Parts(x))
  {
    if Trim(x) == "" {
      assert Slashed("") == "";
      assert Trim("") == "";
      assert ParseTerm(Parts(x)[0]).None?;
    }
  }

  // ----- matching -----

  predicate Covers(r: Range, status: int) { r.first <= status <= r.last }

  /** How many of the ranges hold the status. */
  function Count(s: seq<Range>, status: int): nat {
    if s == [] then 0 else (if Covers(s[0], status) then 1 else 0) + Count(s[1..], status)
  }

  lemma {:induction false} InsertCount(x: Range, s: seq<Range>, status: int)
    ensures Count(Insert(RangeLe, x, s), status) == Count([x], status) + Count(s, status)
  {
    assert [x][1..] == [];
    if s == [] {
    } else if RangeLe(x, s[0]) {
      assert ([x] + s)[1..] == s;
    } else {
      InsertCount(x, s[1..], status);
      assert ([s[0]] + Insert(RangeLe, x, s[1..]))[1..] == Insert(RangeLe, x, s[1..]);
    }
  }

  lemma {:induction false} SortCount(s: seq<Range>, status: int)
    ensures Count(Sort(RangeLe, s), status) == Count(s, status)
  {
    if s != [] {
      SortCount(s[1..], status);
      InsertCount(s[0], Sort(RangeLe, s[1..]), status);
      assert [s[0]][1..] == [];
    }
  }

  lemma {:induction false} CountFinds(s: seq<Range>, status: int)
    ensures Count(s, status) > 0 <==> exists i :: 0 <= i < |s| && Covers(s[i], status)
  {
    if s != [] {
      CountFinds(s[1..], status);
      if i :| 0 <= i < |s| && Covers(s[i], status) {
        if i > 0 { assert Covers(s[1..][i - 1], status); }
      }
      if i :| 0 <= i < |s[1..]| && Covers(s[1..][i], status) { assert Covers(s[i + 1], status); }
    }
  }

  lemma {:induction false} SeparateCountsOnce(s: seq<Range>, status: int)
    requires AllValid(s) && Separate(s)
    ensures Count(s, status) <= 1
    ensures s != [] && status < s[0].first ==> Count(s, status) == 0
  {
    if s != [] {
      var rest := s[1..];
      forall i | 0 < i < |rest| ensures GapBefore(rest, i) { assert GapBefore(s, i + 1); }
      if rest != [] { assert GapBefore(s, 1); }
      SeparateCountsOnce(rest, status);
    }
  }

  lemma {:induction false} CountTwice(s: seq<Range>, status: int, i: nat)
    requires 0 < i < |s| && Covers(s[i - 1], status) && Covers(s[i], status)
    ensures Count(s, status) >= 2
  {
    if i == 1 {
      assert s[1..][0] == s[1];
      CountFinds(s[1..], status);
    } else {
      CountTwice(s[1..], status, i - 1);
    }
  }

  /** Well-formed terms are accepted exactly when no status is named twice. */
  lemma AcceptedExactly(x: string)
    requires Fits(x) && AllParse(Parts(x))
    ensures Accepted(x) <==> forall status :: Count(Ranges(Parts(x)), status) <= 1
  {
    hide ParseTerm, RangeLe, Sort, Fits, Parts;
    var ranges := Ranges(Parts(x));
    var sorted := Sort(RangeLe, ranges);
    ParsedAreValid(Parts(x));
    SortRanges(ranges);
    if Separate(sorted) {
      forall status ensures Count(ranges, status) <= 1 {
        SeparateCountsOnce(sorted, status);
        SortCount(ranges, status);
      }
    } else {
      var i :| 0 < i < |sorted| && !GapBefore(sorted, i);
      SortedNeighbours(sorted, i);
      CountTwice(sorted, sorted[i].first, i);
      SortCount(ranges, sorted[i].first);
    }
  }

  lemma SortedNeighbours(s: seq<Range>, i: nat)
    requires 0 < i < |s| && Sorted(RangeLe, s) && AllValid(s) && !GapBefore(s, i)
    ensures Covers(s[i - 1], s[i].first) && Covers(s[i], s[i].first)
  {}

  /** A status matches when it lies in one of the ranges as they were written. */
  method StatusMatches(x: string, status: int) returns (r: bool)
    ensures r <==>
      && Accepted(x) && 100 <= status <= 599
      && exists i :: 0 <= i < |Parts(x)| && Covers(ParseTerm(Parts(x)[i]).value, status)
  {
    hide ParseTerm, RangeLe, Sort, Fits, Trim, Split, Covers, Show, ValidRange, Bytes;
    var normal := NormalizeStatusExpression(x);
    if normal.None? || status < 100 || status > 599 { return false; }
    ghost var ranges := Ranges(Parts(x));
    ghost var sorted := Sort(RangeLe, ranges);
    ParsedAreValid(Parts(x));
    SortRanges(ranges);
    SortCount(ranges, status);
    CountFinds(ranges, status);
    CountFinds(sorted, status);
    ShownSplits(sorted);
    var parts := Split(normal.value, '/');
    r := false;
    for i := 0 to |parts|
      invariant !r && forall j :: 0 <= j < i ==> !Covers(sorted[j], status)
    {
      var range := ReadShown(parts[i], sorted[i]);
      if Covers(range, status) { return true; }
    }
  }

  lemma ShownSplits(s: seq<Range>)
    requires s != [] && AllValid(s)
    ensures Split(Join(ShowAll(s), '/'), '/') == ShowAll(s)
  {
    hide Show, ValidRange, Split;
    forall i | 0 <= i < |s| ensures Lacks(ShowAll(s)[i], '/') { ShownIsRead(s[i]); }
    SplitInvertsJoin(ShowAll(s), '/');
  }

  /** The two bounds of a printed term. */
  method ReadShown(part: string, ghost shown: Range) returns (r: Range)
    requires ValidRange(shown) && part == Show(shown)
    ensures r == shown
  {
    hide Decimal, Split, Atoi;
    ShownBounds(shown);
    var bounds := Split(part, '-');
    var first := Atoi(bounds[0]);
    var last := first;
    if |bounds| == 2 { last := Atoi(bounds[1]); }
    r := Range(if first.Some? then first.value else 0, if last.Some? then last.value else 0);
  }

  lemma ShownBounds(r: Range)
    requires ValidRange(r)
    ensures Split(Show(r), '-') == if r.first == r.last then [Decimal(r.first)] else [Decimal(r.first), Decimal(r.last)]
    ensures Atoi(Decimal(r.first)) == Some(r.first) && Atoi(Decimal(r.last)) == Some(r.last)
  {
    hide Decimal, Split;
    ValueOfDecimal(r.first);
    ValueOfDecimal(r.last);
    SplitWhole(Decimal(r.first), '-');
    SplitWhole(Decimal(r.last), '-');
    SplitFirst(Decimal(r.first), '-', Decimal(r.last));
  }
}
