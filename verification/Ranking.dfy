/** The choice of the access path: internal/accesspolicy/ranking.go. */
module Ranking {
  import opened Base
  import opened Sorting

  datatype Quality = Unknown | Full | Limited | WhitelistOnly | Broken | OtherQuality(text: string)

  datatype Kind = Direct | Subscription | OtherKind(text: string)

  datatype Candidate = Candidate(
    key: string, methodId: string, kind: Kind, uplink: string, subscription: string, node: string,
    quality: Quality, score: int, methodPriority: int, uplinkPriority: int, nodePriority: int,
    methodEnabled: bool, uplinkReady: bool, nodeAllowed: bool, isFresh: bool)

  datatype Reason = FullPriority | LimitedFunctionalScore

  datatype Decision = Refused | NoCandidate | Chosen(winner: Candidate, sticky: bool, reason: Reason)

  predicate InLimitedClass(q: Quality) { q == Limited || q == WhitelistOnly }

  function Class(q: Quality): int {
    if q == Full then 2 else if InLimitedClass(q) then 1 else 0
  }

  predicate Valid(c: Candidate) {
    && !Blank(c.key) && !Blank(c.methodId) && !Blank(c.uplink)
    && c.methodPriority > 0 && c.uplinkPriority > 0 && c.score >= 0
    && !c.quality.OtherQuality?
    && (InLimitedClass(c.quality) ==> c.score != 0)
    && match c.kind {
         case Direct => c.subscription == "" && c.node == "" && c.nodePriority == 0
         case Subscription => !Blank(c.subscription) && !Blank(c.node) && c.nodePriority > 0
         case OtherKind(_) => false
       }
  }

  predicate Eligible(c: Candidate) {
    c.methodEnabled && c.uplinkReady && c.nodeAllowed && c.isFresh && (c.quality == Full || InLimitedClass(c.quality))
  }

  predicate Less(a: Candidate, b: Candidate, current: string) {
    if Class(a.quality) != Class(b.quality) then Class(a.quality) > Class(b.quality)
    else if InLimitedClass(a.quality) && a.score != b.score then a.score > b.score
    else if a.methodPriority != b.methodPriority then a.methodPriority < b.methodPriority
    else if a.uplinkPriority != b.uplinkPriority then a.uplinkPriority < b.uplinkPriority
    else if a.nodePriority != b.nodePriority then a.nodePriority < b.nodePriority
    else if (a.key == current) != (b.key == current) then a.key == current
    else a.key != b.key && StringLe(a.key, b.key)
  }

  /** Equal in everything an operator controls: only here may the current key decide. */
  predicate Tied(a: Candidate, b: Candidate) {
    && Class(a.quality) == Class(b.quality)
    && (InLimitedClass(a.quality) ==> a.score == b.score)
    && a.methodPriority == b.methodPriority && a.uplinkPriority == b.uplinkPriority && a.nodePriority == b.nodePriority
  }

  lemma LessIsTotal(a: Candidate, b: Candidate, current: string)
    requires Eligible(a) && Eligible(b)
    ensures Less(a, b, current) && Less(b, a, current) ==> false
    ensures Less(a, b, current) || Less(b, a, current) <==> !(Tied(a, b) && a.key == b.key)
  {
    StringLeTotal(a.key, b.key);
    if StringLe(a.key, b.key) && StringLe(b.key, a.key) {
      StringLeAntisymmetric(a.key, b.key);
    }
  }

  lemma LessIsTransitive(a: Candidate, b: Candidate, c: Candidate, current: string)
    requires Eligible(a) && Eligible(b) && Eligible(c)
    requires Less(a, b, current) && Less(b, c, current)
    ensures Less(a, c, current)
  {
    if StringLe(a.key, b.key) && StringLe(b.key, c.key) {
      StringLeTransitive(a.key, b.key, c.key);
      if a.key == c.key { StringLeAntisymmetric(a.key, b.key); }
    }
  }

  predicate DistinctKeys(cs: seq<Candidate>) {
    forall i, j :: 0 <= i < j < |cs| ==> cs[i].key != cs[j].key
  }

  predicate Wellformed(cs: seq<Candidate>) {
    (forall i :: 0 <= i < |cs| ==> Valid(cs[i])) && DistinctKeys(cs)
  }

  /** c is eligible and comes before every other eligible candidate. */
  predicate IsBest(cs: seq<Candidate>, current: string, c: Candidate) {
    && c in cs && Eligible(c)
    && forall i :: 0 <= i < |cs| && Eligible(cs[i]) && cs[i] != c ==> Less(c, cs[i], current)
  }

  function Comparator(current: string): (Candidate, Candidate) -> bool {
    (a: Candidate, b: Candidate) => !Less(b, a, current)
  }

  lemma ComparatorOrders(eligible: seq<Candidate>, current: string)
    requires DistinctKeys(eligible) && forall i :: 0 <= i < |eligible| ==> Eligible(eligible[i])
    ensures Orders(Comparator(current), set c | c in eligible)
  {
    var le := Comparator(current);
    forall a, b | a in eligible && b in eligible ensures le(a, b) || le(b, a) { LessIsTotal(a, b, current); }
    forall a, b | a in eligible && b in eligible && le(a, b) && le(b, a) ensures a == b { LessIsTotal(a, b, current); }
    forall a, b, c | a in eligible && b in eligible && c in eligible && le(a, b) && le(b, c) ensures le(a, c) {
      LessIsTotal(a, b, current);
      LessIsTotal(b, c, current);
      LessIsTotal(a, c, current);
      if Less(c, a, current) && a != b && b != c {
        LessIsTransitive(a, b, c, current);
      }
    }
  }

  lemma SortedHeadIsBest(eligible: seq<Candidate>, current: string)
    requires eligible != [] && DistinctKeys(eligible) && forall i :: 0 <= i < |eligible| ==> Eligible(eligible[i])
    ensures var sorted := Sort(Comparator(current), eligible);
      sorted != [] && IsBest(eligible, current, sorted[0])
  {
    var le := Comparator(current);
    var dom := set c | c in eligible;
    ComparatorOrders(eligible, current);
    SortSorts(le, eligible, dom);
    var sorted := Sort(le, eligible);
    assert |sorted| == |multiset(sorted)| == |eligible|;
    assert sorted[0] in multiset(eligible);
    forall i | 0 <= i < |eligible| && eligible[i] != sorted[0] ensures Less(sorted[0], eligible[i], current) {
      assert eligible[i] in multiset(sorted);
      var j :| 0 <= j < |sorted| && sorted[j] == eligible[i];
      assert le(sorted[0], sorted[j]);
      LessIsTotal(sorted[0], eligible[i], current);
    }
  }

  /** The loop of Rank over its input: every candidate is checked, the eligible ones are kept. */
  method Screen(cs: seq<Candidate>) returns (r: Option<seq<Candidate>>)
    ensures r.None? <==> !Wellformed(cs)
    ensures r.Some? ==> DistinctKeys(r.value) && forall c :: c in r.value <==> c in cs && Eligible(c)
  {
    hide Valid, Eligible;
    var seen: set<string> := {};
    var eligible: seq<Candidate> := [];
    for i := 0 to |cs|
      invariant Wellformed(cs[..i])
      invariant forall k :: k in seen <==> exists j :: 0 <= j < i && cs[j].key == k
      invariant forall c :: c in eligible <==> c in cs[..i] && Eligible(c)
      invariant forall j :: 0 <= j < |eligible| ==> eligible[j].key in seen
      invariant DistinctKeys(eligible)
    {
      var c := cs[i];
      assert cs[..i + 1] == cs[..i] + [c];
      if !Valid(c) { return None; }
      if c.key in seen { return None; }
      seen := seen + {c.key};
      if Eligible(c) { eligible := eligible + [c]; }
    }
    assert cs[..|cs|] == cs;
    r := Some(eligible);
  }

  /** The answer that Rank owes: a refusal of malformed input, nothing where nothing is eligible, else the best. */
  predicate IsAnswer(cs: seq<Candidate>, current: string, d: Decision) {
    && (d == Refused <==> !Wellformed(cs))
    && (d == NoCandidate <==> Wellformed(cs) && forall c | c in cs :: !Eligible(c))
    && (d.Chosen? ==> IsBest(cs, current, d.winner))
    && (d.Chosen? ==> d.sticky == (d.winner.key == current))
    && (d.Chosen? ==> (d.reason == FullPriority <==> d.winner.quality == Full))
  }

  method Rank(cs: seq<Candidate>, current: string) returns (d: Decision)
    ensures IsAnswer(cs, current, d)
  {
    hide Valid, Less, Wellformed;
    var screened := Screen(cs);
    if screened.None? { return Refused; }
    var eligible := screened.value;
    if |eligible| == 0 { return NoCandidate; }
    SortedHeadIsBest(eligible, current);
    var winner := Sort(Comparator(current), eligible)[0];
    assert winner in cs && Eligible(winner);
    forall i | 0 <= i < |cs| && Eligible(cs[i]) && cs[i] != winner ensures Less(winner, cs[i], current) {
      assert cs[i] in eligible;
    }
    d := Chosen(winner, winner.key == current, if InLimitedClass(winner.quality) then LimitedFunctionalScore
      else FullPriority);
  }

  lemma SameBest(cs: seq<Candidate>, other: seq<Candidate>, current: string, c: Candidate, d: Candidate)
    requires multiset(cs) == multiset(other) && IsBest(cs, current, c) && IsBest(other, current, d)
    ensures c == d
  {
    assert d in multiset(cs) && c in multiset(other);
    if c != d { LessIsTotal(c, d, current); }
  }

  function KeyOf(c: Candidate): string { c.key }

  lemma WellformedIsUnordered(cs: seq<Candidate>, other: seq<Candidate>)
    requires multiset(cs) == multiset(other)
    ensures Wellformed(cs) <==> Wellformed(other)
    ensures forall c :: c in cs <==> c in other
  {
    hide Valid;
    forall c ensures c in cs <==> c in other { assert c in multiset(cs) <==> c in multiset(other); }
    forall i | 0 <= i < |cs| ensures cs[i] in other {}
    forall i | 0 <= i < |other| ensures other[i] in cs {}
    MapKeepsPermutation(KeyOf, cs, other);
    DistinctIsUnordered(Map(KeyOf, cs), Map(KeyOf, other));
    KeysAreDistinct(cs);
    KeysAreDistinct(other);
  }

  lemma KeysAreDistinct(cs: seq<Candidate>)
    ensures DistinctKeys(cs) <==> AllDistinct(Map(KeyOf, cs))
  {}

  /** The order of the input does not matter: the answer is the same for every permutation, refusals included. */
  lemma SameForEveryPermutation(cs: seq<Candidate>, other: seq<Candidate>, current: string, d: Decision, e: Decision)
    requires multiset(cs) == multiset(other) && IsAnswer(cs, current, d) && IsAnswer(other, current, e)
    ensures d == e
  {
    hide Valid, Wellformed, IsBest;
    WellformedIsUnordered(cs, other);
    if d.Chosen? {
      assert e.Chosen?;
      SameBest(cs, other, current, d.winner, e.winner);
    }
  }

  /** Dropping candidates that lost does not change the winner. */
  lemma LosersDoNotMatter(cs: seq<Candidate>, fewer: seq<Candidate>, current: string, c: Candidate, d: Candidate)
    requires multiset(fewer) <= multiset(cs) && c in fewer
    requires IsBest(cs, current, c) && IsBest(fewer, current, d)
    ensures c == d
  {
    assert d in multiset(fewer) && d in multiset(cs);
    if c != d { LessIsTotal(c, d, current); }
  }

  /** Two current keys lead to different winners only among tied candidates, and only by naming one of them. */
  lemma CurrentKeyBreaksTiesOnly(cs: seq<Candidate>, current: string, other: string, c: Candidate, d: Candidate)
    requires Wellformed(cs) && IsBest(cs, current, c) && IsBest(cs, other, d)
    ensures c == d || (Tied(c, d) && (c.key == current || d.key == other))
  {
    if c != d {
      assert Less(c, d, current) && Less(d, c, other);
      if c.key != current && d.key != other {
        LessIsTotal(c, d, current);
        if StringLe(c.key, d.key) && StringLe(d.key, c.key) { StringLeAntisymmetric(c.key, d.key); }
      }
    }
  }

  /** A current candidate is kept exactly when no eligible candidate beats it on quality, score or priority. */
  lemma CurrentIsKeptWhenUnbeaten(cs: seq<Candidate>, c: Candidate)
    requires Wellformed(cs) && c in cs && Eligible(c)
    ensures IsBest(cs, c.key, c) <==> forall i :: 0 <= i < |cs| && Eligible(cs[i]) ==>
      Tied(c, cs[i]) || Less(c, cs[i], c.key)
  {}
}
