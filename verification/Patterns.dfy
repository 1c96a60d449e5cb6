/** Detection of prototypical escalation sequences in a list of GDELT events: the two-digit roots of
    the event codes, the greedy matching of a pattern as a subsequence of the roots in order of time,
    the best confidence over all patterns with the events that reach it, and what growing or
    reordering the list does to that confidence. */
module Patterns {
  import opened Collections
  import opened Options

  /** `code` is the event code as text; `time` is present when the event carries a datetime. */
  datatype Event = Event(code: string, time: Option<int>)

  type Pattern = p: seq<string> | p != [] witness ["14"]

  const ESCALATION_PATTERNS: seq<Pattern> := [
    ["14", "17", "18"],
    ["14", "19"],
    ["13", "15", "19"],
    ["15", "18"],
    ["18", "20"]
  ]

  // ---------------------------------------------------------------------------
  // CAMEO root codes
  // ---------------------------------------------------------------------------

  predicate IsDigit(c: char) {
    '0' <= c <= '9'
  }

  predicate IsSpace(c: char) {
    9 <= c as int <= 13 || 28 <= c as int <= 32
  }

  function LeftTrim(s: string): string {
    if s != "" && IsSpace(s[0]) then LeftTrim(s[1..]) else s
  }

  /** The leading digits. */
  function Digits(s: string): (d: string)
    ensures forall c <- d :: IsDigit(c)
    ensures d <= s
  {
    if s != "" && IsDigit(s[0]) then [s[0]] + Digits(s[1..]) else ""
  }

  /** The two-digit root of a numeric code of any depth; nothing for a textual code. Trailing
      blanks cannot be leading digits, so trimming the left is enough. */
  function CameoRoot(code: string): (r: Option<string>)
    ensures r.Some? ==> |r.value| == 2 && forall c <- r.value :: IsDigit(c)
  {
    var digits := Digits(LeftTrim(code));
    if digits == "" then None
    else if |digits| >= 2 then Some(digits[..2])
    else Some("0" + digits)
  }

  /** The ASCII digits, and the ASCII characters that count as blank. */
  lemma {:induction false} CharactersExactly(c: char)
    ensures IsDigit(c) <==> c in "0123456789"
    ensures IsSpace(c) <==> c as int in {9, 10, 11, 12, 13, 28, 29, 30, 31, 32}
  {
    if IsDigit(c) {
      assert "0123456789"[c as int - '0' as int] == c;
    }
  }

  ghost predicate AllDigits(s: string) {
    forall c <- s :: IsDigit(c)
  }

  ghost predicate AllSpaces(s: string) {
    forall c <- s :: IsSpace(c)
  }

  lemma {:induction false} DigitsOf(d: string, rest: string)
    requires AllDigits(d) && (rest != "" ==> !IsDigit(rest[0]))
    ensures Digits(d + rest) == d
  {
    if d == "" {
      assert d + rest == rest;
    } else {
      assert (d + rest)[1..] == d[1..] + rest;
      DigitsOf(d[1..], rest);
    }
  }

  lemma {:induction false} LeftTrimOf(blanks: string, rest: string)
    requires AllSpaces(blanks) && (rest != "" ==> !IsSpace(rest[0]))
    ensures LeftTrim(blanks + rest) == rest
  {
    if blanks == "" {
      assert blanks + rest == rest;
    } else {
      assert (blanks + rest)[1..] == blanks[1..] + rest;
      LeftTrimOf(blanks[1..], rest);
    }
  }

  /** Which root a code has: of a code that starts, after blanks, with the digits `d` and no further
      one, the first two of them, a lone digit with a zero in front, and none without any digit. */
  lemma {:induction false} CameoRootExactly(blanks: string, d: string, rest: string)
    requires AllSpaces(blanks) && AllDigits(d)
    requires rest != "" ==> !IsDigit(rest[0]) && (d == "" ==> !IsSpace(rest[0]))
    ensures CameoRoot(blanks + d + rest) ==
            if d == "" then None else if |d| == 1 then Some(['0', d[0]]) else Some([d[0], d[1]])
  {
    assert blanks + d + rest == blanks + (d + rest);
    if d != "" {
      assert (d + rest)[0] == d[0] && IsDigit(d[0]);
    } else {
      assert d + rest == rest;
    }
    LeftTrimOf(blanks, d + rest);
    DigitsOf(d, rest);
    if |d| == 1 {
      assert "0" + d == ['0', d[0]];
    } else if |d| > 1 {
      assert d[..2] == [d[0], d[1]];
    }
  }

  /** Some codes and their roots: any blanks in front, any depth, and the extreme digits. */
  lemma {:induction false} CameoRootExamples()
    ensures CameoRoot("\t\n\r 1411") == Some("14") && CameoRoot("203") == Some("20")
    ensures CameoRoot("9") == Some("09") && CameoRoot("0x") == Some("00") && CameoRoot("09") == Some("09")
    ensures CameoRoot("x1").None? && CameoRoot("  ").None? && CameoRoot("").None?
  {
    assert "\t\n\r " + "1411" + "" == "\t\n\r 1411";
    CameoRootExactly("\t\n\r ", "1411", "");
    assert "" + "203" + "" == "203" && "" + "9" + "" == "9" && "" + "0" + "x" == "0x" && "" + "09" + "" == "09";
    CameoRootExactly("", "203", "");
    CameoRootExactly("", "9", "");
    CameoRootExactly("", "0", "x");
    CameoRootExactly("", "09", "");
    assert "" + "" + "x1" == "x1" && "  " + "" + "" == "  " && "" + "" + "" == "";
    CameoRootExactly("", "", "x1");
    CameoRootExactly("  ", "", "");
    CameoRootExactly("", "", "");
  }

  /** The roots of the events that have one, with the events' positions. */
  function IndexedRoots(events: seq<Event>): seq<(nat, string)> {
    if events == [] then []
    else
      var k := |events| - 1;
      var r := CameoRoot(events[k].code);
      IndexedRoots(events[..k]) + if r.Some? then [(k, r.value)] else []
  }

  function Codes(roots: seq<(nat, string)>): (cs: seq<string>)
    ensures |cs| == |roots| && forall i | 0 <= i < |roots| :: cs[i] == roots[i].1
  {
    seq(|roots|, i requires 0 <= i < |roots| => roots[i].1)
  }

  // ---------------------------------------------------------------------------
  // Subsequences
  // ---------------------------------------------------------------------------

  /** `u` is obtained from `v` by deleting elements. */
  predicate Sub<T(==)>(u: seq<T>, v: seq<T>)
    decreases |v|
  {
    u == [] || (v != [] && ((u[0] == v[0] && Sub(u[1..], v[1..])) || Sub(u, v[1..])))
  }

  lemma {:induction false} SubTrans<T>(a: seq<T>, b: seq<T>, c: seq<T>)
    requires Sub(a, b) && Sub(b, c)
    ensures Sub(a, c)
    decreases |c|
  {
    if a != [] {
      if b[0] == c[0] && Sub(b[1..], c[1..]) {
        if a[0] == b[0] && Sub(a[1..], b[1..]) {
          SubTrans(a[1..], b[1..], c[1..]);
        } else {
          SubTrans(a, b[1..], c[1..]);
        }
      } else {
        SubTrans(a, b, c[1..]);
      }
    }
  }

  lemma {:induction false} SubTail<T>(u: seq<T>, v: seq<T>)
    requires u != [] && Sub(u, v)
    ensures Sub(u[1..], v)
    decreases |v|
  {
    if u[0] == v[0] && Sub(u[1..], v[1..]) {
      SubExtend(u[1..], v);
    } else {
      SubTail(u, v[1..]);
    }
  }

  lemma {:induction false} SubExtend<T>(u: seq<T>, v: seq<T>)
    requires v != [] && Sub(u, v[1..])
    ensures Sub(u, v)
  {
  }

  lemma {:induction false} SubRefl<T>(u: seq<T>)
    ensures Sub(u, u)
  {
    if u != [] {
      SubRefl(u[1..]);
    }
  }

  /** An element matched greedily at the front of `v` costs nothing. */
  lemma {:induction false} SubFront<T>(u: seq<T>, v: seq<T>)
    requires u != [] && v != [] && u[0] == v[0]
    ensures Sub(u, v) <==> Sub(u[1..], v[1..])
  {
    if Sub(u, v) && !Sub(u[1..], v[1..]) {
      SubTail(u, v[1..]);
    }
  }

  // ---------------------------------------------------------------------------
  // Greedy matching
  // ---------------------------------------------------------------------------

  /** The event positions that _match_pattern collects. */
  function Matches(roots: seq<(nat, string)>, pattern: seq<string>): (r: seq<nat>)
    ensures |r| <= |pattern|
    decreases |roots|
  {
    if roots == [] || pattern == [] then []
    else if roots[0].1 == pattern[0] then [roots[0].0] + Matches(roots[1..], pattern[1..])
    else Matches(roots[1..], pattern)
  }

  /** Greedy matching finds the longest prefix of the pattern that is a subsequence of the roots:
      a prefix of length k is one if and only if at least k elements are matched. */
  lemma {:induction false} MatchesLongestPrefix(roots: seq<(nat, string)>, pattern: seq<string>, k: nat)
    requires k <= |pattern|
    ensures k <= |Matches(roots, pattern)| <==> Sub(pattern[..k], Codes(roots))
    decreases |roots|
  {
    var codes := Codes(roots);
    if roots != [] && k > 0 {
      assert codes[1..] == Codes(roots[1..]);
      if roots[0].1 == pattern[0] {
        assert pattern[1..][..k - 1] == pattern[..k][1..];
        MatchesLongestPrefix(roots[1..], pattern[1..], k - 1);
        SubFront(pattern[..k], codes);
      } else {
        MatchesLongestPrefix(roots[1..], pattern, k);
        assert pattern[..k][0] == pattern[0];
      }
    }
  }

  ghost predicate IncreasingFrom(roots: seq<(nat, string)>, low: int) {
    && (forall i | 0 <= i < |roots| :: low <= roots[i].0)
    && (forall i, j | 0 <= i < j < |roots| :: roots[i].0 < roots[j].0)
  }

  lemma {:induction false} MatchesAmongRoots(roots: seq<(nat, string)>, pattern: seq<string>, low: int)
    requires forall i | 0 <= i < |roots| :: low <= roots[i].0
    ensures var r := Matches(roots, pattern);
            forall i | 0 <= i < |r| :: low <= r[i] && (r[i], pattern[i]) in roots
    decreases |roots|
  {
    if roots != [] && pattern != [] {
      var r := Matches(roots, pattern);
      if roots[0].1 == pattern[0] {
        MatchesAmongRoots(roots[1..], pattern[1..], low);
        forall i | 0 <= i < |r| ensures low <= r[i] && (r[i], pattern[i]) in roots {
          if i == 0 {
            assert roots[0] == (r[0], pattern[0]);
          } else {
            assert r[i] == r[1..][i - 1] && (r[i], pattern[1..][i - 1]) in roots[1..];
          }
        }
      } else {
        MatchesAmongRoots(roots[1..], pattern, low);
      }
    }
  }

  lemma {:induction false} IncreasingCons(p: nat, ps: seq<nat>)
    requires Increasing(ps) && forall i | 0 <= i < |ps| :: p < ps[i]
    ensures Increasing([p] + ps)
  {
  }

  lemma {:induction false} MatchesIncrease(roots: seq<(nat, string)>, pattern: seq<string>, low: int)
    requires IncreasingFrom(roots, low)
    ensures Increasing(Matches(roots, pattern))
    decreases |roots|
  {
    if roots != [] && pattern != [] {
      var rest := roots[1..];
      if roots[0].1 == pattern[0] {
        var tail := Matches(rest, pattern[1..]);
        MatchesAmongRoots(rest, pattern[1..], roots[0].0 + 1);
        MatchesIncrease(rest, pattern[1..], roots[0].0 + 1);
        IncreasingCons(roots[0].0, tail);
      } else {
        MatchesIncrease(rest, pattern, low);
      }
    }
  }

  /** The matched positions are strictly increasing, and each holds its pattern element. */
  lemma {:induction false} MatchesInOrder(roots: seq<(nat, string)>, pattern: seq<string>, low: int)
    requires IncreasingFrom(roots, low)
    ensures var r := Matches(roots, pattern);
            Increasing(r) && forall i | 0 <= i < |r| :: low <= r[i] && (r[i], pattern[i]) in roots
  {
    MatchesAmongRoots(roots, pattern, low);
    MatchesIncrease(roots, pattern, low);
  }

  function Ratio(n: nat, pattern: Pattern): real {
    n as real / |pattern| as real
  }

  /** What one pattern contributes: nothing unless two elements and two thirds of it match. */
  function Confidence(roots: seq<(nat, string)>, pattern: Pattern): real {
    var n := |Matches(roots, pattern)|;
    if n >= 2 && Ratio(n, pattern) >= 0.66 then Ratio(n, pattern) else 0.0
  }

  /** The thresholds: at least two matched elements, and at least 66 hundredths of the pattern. */
  lemma {:induction false} ConfidenceExactly(roots: seq<(nat, string)>, pattern: Pattern)
    ensures var n := |Matches(roots, pattern)|;
            && (Confidence(roots, pattern) != 0.0 <==> n >= 2 && 100 * n >= 66 * |pattern|)
            && (Confidence(roots, pattern) != 0.0 ==> Confidence(roots, pattern) == Ratio(n, pattern))
  {
    RatioExactly(|Matches(roots, pattern)|, pattern);
  }

  lemma {:induction false} RatioExactly(n: nat, pattern: Pattern)
    ensures Ratio(n, pattern) * |pattern| as real == n as real
    ensures Ratio(n, pattern) >= 0.66 <==> 100 * n >= 66 * |pattern|
    ensures Ratio(n, pattern) == 0.0 <==> n == 0
  {
    RatioAtLeast(n as real, |pattern| as real);
  }

  lemma {:induction false} RatioAtLeast(x: real, y: real)
    requires y > 0.0
    ensures x / y * y == x
    ensures x / y >= 0.66 <==> x >= 0.66 * y
    ensures x / y == 0.0 <==> x == 0.0
  {
    QuotientTimes(x, y);
    ProductAtLeast(x / y, x, y);
  }

  lemma {:induction false} ProductAtLeast(q: real, x: real, y: real)
    requires y > 0.0 && q * y == x
    ensures q >= 0.66 <==> x >= 0.66 * y
    ensures q == 0.0 <==> x == 0.0
  {
    QuotientOrder(q, 0.66, y);
    QuotientOrder(q, 0.0, y);
    QuotientOrder(0.0, q, y);
    assert 0.0 * y == 0.0;
  }

  lemma {:induction false} QuotientTimes(x: real, y: real)
    requires y > 0.0
    ensures x / y * y == x
  {
  }

  lemma {:induction false} QuotientOrder(q: real, k: real, y: real)
    requires y > 0.0
    ensures q >= k <==> q * y >= k * y
  {
    if q >= k {
      ProductSign(q - k, y);
      assert (q - k) * y == q * y - k * y;
    } else {
      ProductSign(k - q, y);
      assert (k - q) * y == k * y - q * y;
    }
  }

  lemma {:induction false} ProductSign(x: real, y: real)
    requires x >= 0.0 && y > 0.0
    ensures x * y >= 0.0 && (x > 0.0 ==> x * y > 0.0)
  {
  }

  method MatchPattern(roots: seq<(nat, string)>, pattern: Pattern) returns (confidence: real, matched: seq<nat>)
    ensures confidence == Confidence(roots, pattern)
    ensures matched == if confidence == 0.0 then [] else Matches(roots, pattern)
  {
    matched := [];
    var patternIdx := 0;
    var i := 0;
    assert roots[0..] == roots && pattern[0..] == pattern;
    while i < |roots| && patternIdx < |pattern|
      invariant i <= |roots| && patternIdx <= |pattern|
      invariant |matched| == patternIdx
      invariant matched + Matches(roots[i..], pattern[patternIdx..]) == Matches(roots, pattern)
    {
      assert roots[i..][1..] == roots[i + 1..] && pattern[patternIdx..][1..] == pattern[patternIdx + 1..];
      if roots[i].1 == pattern[patternIdx] {
        assert matched + ([roots[i].0] + Matches(roots[i + 1..], pattern[patternIdx + 1..]))
            == matched + [roots[i].0] + Matches(roots[i + 1..], pattern[patternIdx + 1..]);
        matched := matched + [roots[i].0];
        patternIdx := patternIdx + 1;
      }
      i := i + 1;
    }
    assert matched == Matches(roots, pattern);
    confidence := |matched| as real / |pattern| as real;
    if |matched| >= 2 && confidence >= 0.66 {
      return;
    }
    confidence, matched := 0.0, [];
  }

  // ---------------------------------------------------------------------------
  // Sorting
  // ---------------------------------------------------------------------------

  predicate AllTimed(events: seq<Event>) {
    forall e <- events :: e.time.Some?
  }

  /** The time of an event that has one. */
  function TimeOf(e: Event): int {
    if e.time.Some? then e.time.value else 0
  }

  /** The stable sort by time, oldest first. */
  function Sort(events: seq<Event>): seq<Event> {
    SortBy(TimeOf, events)
  }

  ghost predicate Sorted(es: seq<Event>) {
    AllTimed(es) && SortedBy(TimeOf, es)
  }

  lemma {:induction false} SortFacts(events: seq<Event>)
    requires AllTimed(events)
    ensures Sorted(Sort(events)) && multiset(Sort(events)) == multiset(events)
  {
    SortBySorts(TimeOf, events);
    forall e <- Sort(events) ensures e.time.Some? {
      SortByMember(TimeOf, events, e);
    }
  }

  lemma {:induction false} SubMember<T>(u: seq<T>, v: seq<T>, x: T)
    requires Sub(u, v) && x in u
    ensures x in v
    decreases |v|
  {
    if u[0] == v[0] && Sub(u[1..], v[1..]) {
      if x != u[0] {
        SubMember(u[1..], v[1..], x);
      }
    } else {
      SubMember(u, v[1..], x);
    }
  }

  lemma {:induction false} InsertGrows(x: Event, p: seq<Event>, q: seq<Event>)
    requires Sub(p, q)
    ensures Sub(p, InsertBy(TimeOf, x, q))
    decreases |q|
  {
    if p != [] {
      if q == [] || TimeOf(x) <= TimeOf(q[0]) {
        SubExtend(p, [x] + q);
      } else {
        assert InsertBy(TimeOf, x, q)[1..] == InsertBy(TimeOf, x, q[1..]);
        if p[0] == q[0] && Sub(p[1..], q[1..]) {
          InsertGrows(x, p[1..], q[1..]);
        } else {
          InsertGrows(x, p, q[1..]);
        }
      }
    }
  }

  /** Inserting the same event into a sorted list and into a sorted sublist of it. */
  lemma {:induction false} InsertMonotone(x: Event, p: seq<Event>, q: seq<Event>)
    requires Sub(p, q) && SortedBy(TimeOf, q)
    ensures Sub(InsertBy(TimeOf, x, p), InsertBy(TimeOf, x, q))
    decreases |q|
  {
    if q == [] {
      SubRefl([x]);
    } else if TimeOf(x) <= TimeOf(q[0]) {
      forall e <- p ensures TimeOf(x) <= TimeOf(e) {
        SubMember(p, q, e);
        assert e == q[0] || TimeOf(q[0]) <= TimeOf(e);
      }
      assert InsertBy(TimeOf, x, p) == [x] + p;
      assert ([x] + p)[1..] == p && ([x] + q)[1..] == q;
    } else {
      var rest := InsertBy(TimeOf, x, q[1..]);
      assert InsertBy(TimeOf, x, q)[1..] == rest;
      if p != [] && p[0] == q[0] && Sub(p[1..], q[1..]) {
        InsertMonotone(x, p[1..], q[1..]);
        assert InsertBy(TimeOf, x, p)[1..] == InsertBy(TimeOf, x, p[1..]);
      } else {
        assert Sub(p, q[1..]);
        InsertMonotone(x, p, q[1..]);
        SubExtend(InsertBy(TimeOf, x, p), InsertBy(TimeOf, x, q));
      }
    }
  }

  /** Sorting keeps sublists: deleting events and sorting commute. */
  lemma {:induction false} SortKeepsSub(u: seq<Event>, v: seq<Event>)
    requires Sub(u, v) && AllTimed(v)
    ensures Sub(Sort(u), Sort(v))
    decreases |v|
  {
    if u != [] {
      SortFacts(v[1..]);
      if u[0] == v[0] && Sub(u[1..], v[1..]) {
        SortKeepsSub(u[1..], v[1..]);
        InsertMonotone(v[0], Sort(u[1..]), Sort(v[1..]));
      } else {
        SortKeepsSub(u, v[1..]);
        InsertGrows(v[0], Sort(u), Sort(v[1..]));
      }
    }
  }

  ghost predicate DistinctTimes(events: seq<Event>) {
    forall i, j | 0 <= i < j < |events| :: events[i].time != events[j].time
  }

  lemma {:induction false} TailMultiset(a: seq<Event>)
    requires a != []
    ensures multiset(a) == multiset{a[0]} + multiset(a[1..])
  {
    assert a == [a[0]] + a[1..];
  }

  /** Equal times mean equal events. */
  ghost predicate TimesIdentify(m: multiset<Event>) {
    forall x, y | x in m && y in m && x.time == y.time :: x == y
  }

  lemma {:induction false} SameHead(a: seq<Event>, b: seq<Event>)
    requires Sorted(a) && Sorted(b) && multiset(a) == multiset(b) && a != [] && b != []
    requires TimesIdentify(multiset(a))
    ensures a[0] == b[0]
  {
    assert a[0] in multiset(b) && b[0] in multiset(a);
    assert a[0] in b && b[0] in a;
    assert TimeOf(b[0]) <= TimeOf(a[0]);
    assert TimeOf(a[0]) <= TimeOf(b[0]);
    assert a[0].time.Some? && b[0].time.Some?;
  }

  lemma {:induction false} TailsAgree(a: seq<Event>, b: seq<Event>)
    requires a != [] && b != [] && a[0] == b[0] && multiset(a) == multiset(b)
    ensures multiset(a[1..]) == multiset(b[1..])
  {
    TailMultiset(a);
    TailMultiset(b);
    assert multiset(a) - multiset{a[0]} == multiset(a[1..]);
    assert multiset(b) - multiset{b[0]} == multiset(b[1..]);
  }

  lemma {:induction false} TailIdentifies(a: seq<Event>)
    requires a != [] && TimesIdentify(multiset(a))
    ensures TimesIdentify(multiset(a[1..]))
  {
    TailMultiset(a);
  }

  lemma {:induction false} SortedTail(a: seq<Event>)
    requires Sorted(a) && a != []
    ensures Sorted(a[1..])
  {
    assert forall e <- a[1..] :: e in a;
  }

  lemma {:induction false} UniqueStep(a: seq<Event>, b: seq<Event>)
    requires Sorted(a) && Sorted(b) && multiset(a) == multiset(b) && a != [] && b != []
    requires TimesIdentify(multiset(a))
    ensures a[0] == b[0] && multiset(a[1..]) == multiset(b[1..])
    ensures Sorted(a[1..]) && Sorted(b[1..]) && TimesIdentify(multiset(a[1..]))
  {
    SameHead(a, b);
    TailsAgree(a, b);
    TailIdentifies(a);
    SortedTail(a);
    SortedTail(b);
  }

  /** There is only one way to put events of distinct times in order. */
  lemma {:induction false} SortedUnique(a: seq<Event>, b: seq<Event>)
    requires Sorted(a) && Sorted(b) && multiset(a) == multiset(b)
    requires TimesIdentify(multiset(a))
    ensures a == b
    decreases |a|
  {
    SameLength(a, b);
    if a != [] {
      UniqueStep(a, b);
      SortedUnique(a[1..], b[1..]);
      assert a == [a[0]] + a[1..] && b == [b[0]] + b[1..];
    }
  }

  lemma {:induction false} SameLength(a: seq<Event>, b: seq<Event>)
    requires multiset(a) == multiset(b)
    ensures |a| == |b|
  {
    assert |a| == |multiset(a)| == |multiset(b)| == |b|;
  }

  // ---------------------------------------------------------------------------
  // Detection
  // ---------------------------------------------------------------------------

  /** The events in the order in which sequences are matched. */
  function Ordered(events: seq<Event>): seq<Event> {
    if AllTimed(events) then Sort(events) else events
  }

  /** The best confidence over the first `n` patterns. */
  function Best(roots: seq<(nat, string)>, patterns: seq<Pattern>): real {
    if patterns == [] then 0.0
    else
      var b, c := Best(roots, patterns[..|patterns| - 1]), Confidence(roots, patterns[|patterns| - 1]);
      if c > b then c else b
  }

  function DetectedConfidence(events: seq<Event>, patterns: seq<Pattern>): real {
    if |events| < 2 then 0.0 else Best(IndexedRoots(Ordered(events)), patterns)
  }

  /** `chosen` is a chronological selection of events whose roots start some pattern of this
      confidence. */
  ghost predicate Witnesses(events: seq<Event>, patterns: seq<Pattern>, chosen: seq<Event>, confidence: real) {
    exists p <- patterns ::
      && Confidence(IndexedRoots(events), p) == confidence
      && chosen == EventsAt(events, Matches(IndexedRoots(events), p))
  }

  function EventsAt(events: seq<Event>, ps: seq<nat>): (r: seq<Event>)
    ensures |r| <= |ps|
  {
    if ps == [] then []
    else EventsAt(events, ps[..|ps| - 1]) + if ps[|ps| - 1] < |events| then [events[ps[|ps| - 1]]] else []
  }

  /** detect_pattern, for any list of patterns. */
  method DetectPattern(events: seq<Event>, patterns: seq<Pattern>)
    returns (bestMatch: Option<seq<Event>>, bestConfidence: real)
    ensures bestConfidence == DetectedConfidence(events, patterns)
    ensures bestMatch.None? <==> bestConfidence == 0.0
    ensures bestMatch.Some? ==> Witnesses(Ordered(events), patterns, bestMatch.value, bestConfidence)
  {
    bestMatch, bestConfidence := None, 0.0;
    if |events| < 2 {
      return;
    }
    var ordered := if AllTimed(events) then Sort(events) else events;
    var roots := IndexedRoots(ordered);
    assert patterns[..0] == [];
    for k := 0 to |patterns|
      invariant bestConfidence == Best(roots, patterns[..k]) && bestConfidence >= 0.0
      invariant bestMatch.None? <==> bestConfidence == 0.0
      invariant bestMatch.Some? ==> Witnesses(ordered, patterns, bestMatch.value, bestConfidence)
    {
      assert patterns[..k + 1][..k] == patterns[..k];
      var confidence, matched := MatchPattern(roots, patterns[k]);
      if confidence > bestConfidence {
        bestConfidence := confidence;
        bestMatch := Some(EventsAt(ordered, matched));
        assert patterns[k] in patterns;
      }
    }
    assert patterns[..|patterns|] == patterns;
  }

  lemma {:induction false} IndexedRootsFacts(events: seq<Event>)
    ensures IncreasingFrom(IndexedRoots(events), 0)
    ensures forall r <- IndexedRoots(events) :: r.0 < |events| && CameoRoot(events[r.0].code) == Some(r.1)
  {
    if events != [] {
      var k := |events| - 1;
      var init := events[..k];
      IndexedRootsFacts(init);
      forall r | r in IndexedRoots(init) ensures r.0 < k && events[r.0] == init[r.0] {
      }
      forall i | 0 <= i < |IndexedRoots(init)| ensures IndexedRoots(init)[i].0 < k {
        assert IndexedRoots(init)[i] in IndexedRoots(init);
      }
    }
  }

  /** The events reported for a pattern spell a prefix of it, oldest position first. */
  lemma {:induction false} MatchSpellsPattern(events: seq<Event>, pattern: Pattern)
    ensures var r := Matches(IndexedRoots(events), pattern);
            && Increasing(r)
            && (forall i | 0 <= i < |r| :: r[i] < |events| && CameoRoot(events[r[i]].code) == Some(pattern[i]))
            && |EventsAt(events, r)| == |r| && forall i | 0 <= i < |r| :: EventsAt(events, r)[i] == events[r[i]]
  {
    var r := Matches(IndexedRoots(events), pattern);
    IndexedRootsFacts(events);
    MatchesInOrder(IndexedRoots(events), pattern, 0);
    forall i | 0 <= i < |r| ensures r[i] < |events| && CameoRoot(events[r[i]].code) == Some(pattern[i]) {
      assert (r[i], pattern[i]) in IndexedRoots(events);
    }
    EventsAtAll(events, r);
  }

  lemma {:induction false} EventsAtAll(events: seq<Event>, ps: seq<nat>)
    requires forall i | 0 <= i < |ps| :: ps[i] < |events|
    ensures |EventsAt(events, ps)| == |ps|
    ensures forall i | 0 <= i < |ps| :: EventsAt(events, ps)[i] == events[ps[i]]
  {
    if ps != [] {
      var init, last := ps[..|ps| - 1], ps[|ps| - 1];
      assert forall i | 0 <= i < |init| :: init[i] == ps[i];
      EventsAtAll(events, init);
      assert EventsAt(events, ps) == EventsAt(events, init) + [events[last]];
    }
  }

  lemma {:induction false} BestIsMaximum(roots: seq<(nat, string)>, patterns: seq<Pattern>)
    ensures Best(roots, patterns) >= 0.0
    ensures forall p <- patterns :: Confidence(roots, p) <= Best(roots, patterns)
    ensures Best(roots, patterns) == 0.0 || exists p <- patterns :: Confidence(roots, p) == Best(roots, patterns)
  {
    if patterns != [] {
      var init, last := patterns[..|patterns| - 1], patterns[|patterns| - 1];
      assert patterns == init + [last];
      BestIsMaximum(roots, init);
      if Best(roots, patterns) > 0.0 {
        if Best(roots, patterns) == Confidence(roots, last) {
          assert last in patterns;
        } else {
          var p :| p in init && Confidence(roots, p) == Best(roots, init);
          assert p in patterns;
        }
      }
    }
  }

  lemma {:induction false} PatternConfidence(roots: seq<(nat, string)>, pattern: Pattern)
    requires 2 <= |pattern| <= 3
    ensures Confidence(roots, pattern) in {0.0, 2.0 / 3.0, 1.0}
  {
    var n := |Matches(roots, pattern)|;
    assert n <= |pattern|;
  }

  /** With the five built-in patterns a list of events scores nothing, two thirds, or one. */
  lemma {:induction false} BuiltInConfidences(events: seq<Event>)
    ensures DetectedConfidence(events, ESCALATION_PATTERNS) in {0.0, 2.0 / 3.0, 1.0}
  {
    var roots := IndexedRoots(Ordered(events));
    BestIsMaximum(roots, ESCALATION_PATTERNS);
    forall p <- ESCALATION_PATTERNS ensures Confidence(roots, p) in {0.0, 2.0 / 3.0, 1.0} {
      PatternConfidence(roots, p);
    }
  }

  /** Only the set of events matters when their times are distinct. */
  lemma {:induction false} OrderDoesNotMatter(u: seq<Event>, v: seq<Event>)
    requires AllTimed(u) && DistinctTimes(u) && multiset(u) == multiset(v)
    ensures Ordered(u) == Ordered(v)
    ensures forall patterns :: DetectedConfidence(u, patterns) == DetectedConfidence(v, patterns)
  {
    forall e | e in v ensures e.time.Some? {
      assert e in multiset(v);
      assert e in u;
    }
    SortFacts(u);
    SortFacts(v);
    forall x, y | x in multiset(Sort(u)) && y in multiset(Sort(u)) && x.time == y.time ensures x == y {
      assert x in u && y in u;
      var i :| 0 <= i < |u| && u[i] == x;
      var j :| 0 <= j < |u| && u[j] == y;
      assert i == j;
    }
    SortedUnique(Sort(u), Sort(v));
    assert |multiset(u)| == |multiset(v)|;
  }

  lemma {:induction false} RootsGrow(u: seq<Event>, v: seq<Event>)
    requires Sub(u, v)
    ensures Sub(RootList(u), RootList(v))
    decreases |v|
  {
    if v != [] && u != [] {
      if u[0] == v[0] && Sub(u[1..], v[1..]) {
        RootsGrow(u[1..], v[1..]);
        RootListHead(u);
        RootListHead(v);
      } else {
        RootsGrow(u, v[1..]);
        RootListHead(v);
        if CameoRoot(v[0].code).Some? {
          SubExtend(RootList(u), RootList(v));
        }
      }
    }
  }

  lemma {:induction false} RootListHead(events: seq<Event>)
    requires events != []
    ensures CameoRoot(events[0].code).None? ==> RootList(events) == RootList(events[1..])
    ensures CameoRoot(events[0].code).Some? ==>
              && RootList(events) != []
              && RootList(events)[0] == CameoRoot(events[0].code).value
              && RootList(events)[1..] == RootList(events[1..])
  {
  }

  /** The roots of the events, front to back. */
  function RootList(events: seq<Event>): seq<string> {
    if events == [] then []
    else
      var r := CameoRoot(events[0].code);
      (if r.Some? then [r.value] else []) + RootList(events[1..])
  }

  lemma {:induction false} RootListSnoc(events: seq<Event>, e: Event)
    ensures RootList(events + [e]) ==
            RootList(events) + if CameoRoot(e.code).Some? then [CameoRoot(e.code).value] else []
  {
    if events == [] {
      assert [] + [e] == [e] && [e][1..] == [];
    } else {
      var tail := if CameoRoot(e.code).Some? then [CameoRoot(e.code).value] else [];
      var head := if CameoRoot(events[0].code).Some? then [CameoRoot(events[0].code).value] else [];
      assert (events + [e])[1..] == events[1..] + [e];
      RootListSnoc(events[1..], e);
      Assoc(head, RootList(events[1..]), tail);
    }
  }

  lemma {:induction false} CodesAreRootList(events: seq<Event>)
    ensures Codes(IndexedRoots(events)) == RootList(events)
  {
    if events != [] {
      var init, last := events[..|events| - 1], events[|events| - 1];
      assert events == init + [last];
      CodesAreRootList(init);
      RootListSnoc(init, last);
    }
  }

  lemma {:induction false} RatioMonotone(n: nat, m: nat, pattern: Pattern)
    requires n <= m
    ensures Ratio(n, pattern) <= Ratio(m, pattern)
  {
  }

  lemma {:induction false} ConfidenceGrows(u: seq<Event>, v: seq<Event>, pattern: Pattern)
    requires Sub(u, v)
    ensures Confidence(IndexedRoots(u), pattern) <= Confidence(IndexedRoots(v), pattern)
  {
    var n := |Matches(IndexedRoots(u), pattern)|;
    MatchesLongestPrefix(IndexedRoots(u), pattern, n);
    CodesAreRootList(u);
    CodesAreRootList(v);
    RootsGrow(u, v);
    SubTrans(pattern[..n], RootList(u), RootList(v));
    MatchesLongestPrefix(IndexedRoots(v), pattern, n);
    RatioMonotone(n, |Matches(IndexedRoots(v), pattern)|, pattern);
  }

  lemma {:induction false} BestGrows(u: seq<Event>, v: seq<Event>, patterns: seq<Pattern>)
    requires Sub(u, v)
    ensures Best(IndexedRoots(u), patterns) <= Best(IndexedRoots(v), patterns)
  {
    if patterns != [] {
      BestGrows(u, v, patterns[..|patterns| - 1]);
      ConfidenceGrows(u, v, patterns[|patterns| - 1]);
    }
  }

  lemma {:induction false} SubLength<T>(u: seq<T>, v: seq<T>)
    requires Sub(u, v)
    ensures |u| <= |v|
    decreases |v|
  {
    if u != [] {
      if u[0] == v[0] && Sub(u[1..], v[1..]) {
        SubLength(u[1..], v[1..]);
      } else {
        SubLength(u, v[1..]);
      }
    }
  }

  /** Inserting timed events anywhere into an all-timed list never lowers the confidence. */
  lemma {:induction false} MoreEventsNeverLowerConfidence(u: seq<Event>, v: seq<Event>, patterns: seq<Pattern>)
    requires Sub(u, v) && AllTimed(v)
    ensures DetectedConfidence(u, patterns) <= DetectedConfidence(v, patterns)
  {
    SubLength(u, v);
    forall e | e in u ensures e.time.Some? {
      SubMember(u, v, e);
    }
    SortKeepsSub(u, v);
    BestGrows(Sort(u), Sort(v), patterns);
    BestIsMaximum(IndexedRoots(Ordered(v)), patterns);
  }

  lemma {:induction false} SubOfExtension<T>(u: seq<T>, x: T)
    ensures Sub(u, u + [x])
  {
    if u != [] {
      assert (u + [x])[1..] == u[1..] + [x];
      SubOfExtension(u[1..], x);
    }
  }

  /** The confidence of the list as it stands, without sorting. */
  function UnsortedConfidence(events: seq<Event>, patterns: seq<Pattern>): real {
    if |events| < 2 then 0.0 else Best(IndexedRoots(events), patterns)
  }

  lemma {:induction false} UntimedGrowthIsSafe(u: seq<Event>, v: seq<Event>, patterns: seq<Pattern>)
    requires Sub(u, v) && !AllTimed(v)
    ensures UnsortedConfidence(u, patterns) <= DetectedConfidence(v, patterns)
  {
    SubLength(u, v);
    BestGrows(u, v, patterns);
    BestIsMaximum(IndexedRoots(v), patterns);
  }

  lemma {:induction false} RootlessEvent(u: seq<Event>, x: Event)
    requires CameoRoot(x.code).None?
    ensures IndexedRoots(u + [x]) == IndexedRoots(u)
  {
    var v := u + [x];
    assert v[..|u|] == u && v[|u|] == x;
    assert IndexedRoots(u) + [] == IndexedRoots(u);
  }

  lemma {:induction false} UntimedRootlessEvent(u: seq<Event>, x: Event, patterns: seq<Pattern>)
    requires x.time.None? && CameoRoot(x.code).None? && |u| >= 2
    ensures Sub(u, u + [x]) && DetectedConfidence(u + [x], patterns) == UnsortedConfidence(u, patterns)
  {
    SubOfExtension(u, x);
    RootlessEvent(u, x);
    assert x in u + [x];
  }

  /** For one list of patterns: growing a list never lowers its confidence if and only if the list is
      not sorted at all, or sorting it does not raise its confidence. */
  lemma {:induction false} GrowthSafeForPatterns(u: seq<Event>, patterns: seq<Pattern>)
    ensures (forall v | Sub(u, v) :: DetectedConfidence(u, patterns) <= DetectedConfidence(v, patterns))
            <==> !AllTimed(u) || DetectedConfidence(u, patterns) <= UnsortedConfidence(u, patterns)
  {
    if !AllTimed(u) || DetectedConfidence(u, patterns) <= UnsortedConfidence(u, patterns) {
      forall v | Sub(u, v) ensures DetectedConfidence(u, patterns) <= DetectedConfidence(v, patterns) {
        if AllTimed(v) {
          MoreEventsNeverLowerConfidence(u, v, patterns);
        } else {
          UntimedGrowthIsSafe(u, v, patterns);
        }
      }
    } else {
      SomeRoots();
      UntimedRootlessEvent(u, Event("x", None), patterns);
    }
  }

  lemma {:induction false} SubOfSameLength<T>(u: seq<T>, v: seq<T>)
    requires Sub(u, v) && |u| == |v|
    ensures u == v
  {
    if u != [] {
      if u[0] == v[0] && Sub(u[1..], v[1..]) {
        SubOfSameLength(u[1..], v[1..]);
        assert u == [u[0]] + u[1..] && v == [v[0]] + v[1..];
      } else {
        SubLength(u, v[1..]);
      }
    }
  }

  /** The whole pattern is matched if and only if it is a subsequence of the roots. */
  lemma {:induction false} FullMatch(events: seq<Event>, pattern: Pattern)
    ensures Sub(pattern, RootList(events)) ==> |Matches(IndexedRoots(events), pattern)| == |pattern|
    ensures !Sub(pattern, RootList(events)) ==> |Matches(IndexedRoots(events), pattern)| < |pattern|
  {
    MatchesLongestPrefix(IndexedRoots(events), pattern, |pattern|);
    CodesAreRootList(events);
    assert pattern[..|pattern|] == pattern;
  }

  /** What a pattern of two or three elements contributes. */
  function ScoreOf(rootList: seq<string>, pattern: Pattern): real
    requires 2 <= |pattern| <= 3
  {
    if Sub(pattern, rootList) then 1.0 else if |pattern| == 3 && Sub(pattern[..2], rootList) then 2.0 / 3.0 else 0.0
  }

  lemma {:induction false} ConfidenceIsScore(events: seq<Event>, pattern: Pattern)
    requires 2 <= |pattern| <= 3
    ensures Confidence(IndexedRoots(events), pattern) == ScoreOf(RootList(events), pattern)
  {
    FullMatch(events, pattern);
    MatchesLongestPrefix(IndexedRoots(events), pattern, 2);
    CodesAreRootList(events);
    assert |pattern| == 2 ==> pattern[..2] == pattern;
  }

  /** Detection with patterns of two or three elements: a full score exactly for a list whose roots
      contain one of them, in order and with gaps allowed, and two thirds for the first two of three. */
  lemma {:induction false} ShortPatternsExactly(events: seq<Event>, ps: seq<Pattern>)
    requires forall p <- ps :: 2 <= |p| <= 3
    ensures var r := RootList(events);
            Best(IndexedRoots(events), ps) ==
            if exists p <- ps :: Sub(p, r) then 1.0
            else if exists p <- ps :: |p| == 3 && Sub(p[..2], r) then 2.0 / 3.0
            else 0.0
  {
    var r, best := RootList(events), Best(IndexedRoots(events), ps);
    BestIsMaximum(IndexedRoots(events), ps);
    forall p <- ps ensures Confidence(IndexedRoots(events), p) == ScoreOf(r, p) {
      ConfidenceIsScore(events, p);
    }
    if p :| p in ps && Sub(p, r) {
      assert Confidence(IndexedRoots(events), p) == 1.0;
    } else if p :| p in ps && |p| == 3 && Sub(p[..2], r) {
      assert Confidence(IndexedRoots(events), p) == 2.0 / 3.0;
    }
  }

  lemma {:induction false} TooFewDetectNothing(events: seq<Event>, p: seq<string>)
    requires |events| < 2 && |p| >= 2
    ensures !Sub(p, RootList(Ordered(events)))
  {
    if AllTimed(events) {
      SortFacts(events);
      SameLength(Sort(events), events);
    }
    RootListLength(Ordered(events));
    if Sub(p, RootList(Ordered(events))) {
      SubLength(p, RootList(Ordered(events)));
    }
  }

  lemma {:induction false} DetectedExactly(events: seq<Event>, ps: seq<Pattern>)
    requires forall p <- ps :: 2 <= |p| <= 3
    ensures var r := RootList(Ordered(events));
            DetectedConfidence(events, ps) ==
            if exists p <- ps :: Sub(p, r) then 1.0
            else if exists p <- ps :: |p| == 3 && Sub(p[..2], r) then 2.0 / 3.0
            else 0.0
  {
    ShortPatternsExactly(Ordered(events), ps);
    if |events| < 2 {
      forall p <- ps ensures !Sub(p, RootList(Ordered(events))) && !Sub(p[..2], RootList(Ordered(events))) {
        TooFewDetectNothing(events, p);
        TooFewDetectNothing(events, p[..2]);
      }
    }
  }

  lemma {:induction false} AnyOfFive(r: seq<string>, p: Pattern, q: Pattern, t: Pattern, u: Pattern, v: Pattern)
    ensures (exists x <- [p, q, t, u, v] :: Sub(x, r)) <==> Sub(p, r) || Sub(q, r) || Sub(t, r) || Sub(u, r) || Sub(v, r)
    ensures |p| == |t| == 3 && |q| == |u| == |v| == 2 ==>
              ((exists x <- [p, q, t, u, v] :: |x| == 3 && Sub(x[..2], r)) <==> Sub(p[..2], r) || Sub(t[..2], r))
  {
    var ps := [p, q, t, u, v];
    assert ps[0] in ps && ps[1] in ps && ps[2] in ps && ps[3] in ps && ps[4] in ps;
  }

  /** The built-in patterns spelled out. */
  lemma {:induction false} BuiltInExactly(events: seq<Event>, r: seq<string>)
    requires r == RootList(Ordered(events))
    ensures (exists p <- ESCALATION_PATTERNS :: Sub(p, r)) <==>
              Sub(["14", "17", "18"], r) || Sub(["14", "19"], r) || Sub(["13", "15", "19"], r) || Sub(["15", "18"], r)
              || Sub(["18", "20"], r)
    ensures (exists p <- ESCALATION_PATTERNS :: |p| == 3 && Sub(p[..2], r)) <==> Sub(["14", "17"], r) || Sub(["13", "15"], r)
    ensures DetectedConfidence(events, ESCALATION_PATTERNS) ==
            if exists p <- ESCALATION_PATTERNS :: Sub(p, r) then 1.0
            else if exists p <- ESCALATION_PATTERNS :: |p| == 3 && Sub(p[..2], r) then 2.0 / 3.0
            else 0.0
  {
    var p, t: Pattern := ["14", "17", "18"], ["13", "15", "19"];
    assert p[..2] == ["14", "17"] && t[..2] == ["13", "15"];
    AnyOfFive(r, p, ["14", "19"], t, ["15", "18"], ["18", "20"]);
    DetectedExactly(events, ESCALATION_PATTERNS);
  }

  lemma {:induction false} RootListLength(events: seq<Event>)
    ensures |RootList(events)| <= |events|
  {
    if events != [] {
      RootListLength(events[1..]);
    }
  }

  /** The multiset of roots does not depend on the order of the events. */
  lemma {:induction false} RootListPermutes(u: seq<Event>, v: seq<Event>)
    requires multiset(u) == multiset(v)
    ensures |RootList(u)| == |RootList(v)|
    decreases |u|
  {
    assert |u| == |multiset(u)| == |multiset(v)| == |v|;
    if u != [] {
      var i := RemoveFromBoth(u, v);
      RootListHead(u);
      RootListRemove(v, i);
      RootListPermutes(u[1..], v[..i] + v[i + 1..]);
    }
  }

  lemma {:induction false} RootListRemove(v: seq<Event>, i: nat)
    requires i < |v|
    ensures |RootList(v)| == |RootList(v[..i] + v[i + 1..])| + if CameoRoot(v[i].code).Some? then 1 else 0
  {
    var rest := v[..i] + v[i + 1..];
    RootListHead(v);
    if i == 0 {
      assert rest == v[1..];
    } else {
      RootListRemove(v[1..], i - 1);
      assert v[1..][..i - 1] + v[1..][i..] == rest[1..];
      RootListHead(rest);
    }
  }

  lemma {:induction false} ShortRootsAreFixed(events: seq<Event>)
    requires |events| < 2
    ensures Sort(events) == events
  {
    if events != [] {
      assert events == [events[0]] && events[1..] == [] && SortBy(TimeOf, events[1..]) == [];
      assert InsertBy(TimeOf, events[0], []) == [events[0]] + [];
    }
  }

  lemma {:induction false} DifferentRootsAreTwo(u: seq<Event>)
    requires AllTimed(u) && RootList(Sort(u)) != RootList(u)
    ensures |u| >= 2 && |RootList(Sort(u))| == |RootList(u)| >= 2
  {
    if |u| < 2 {
      ShortRootsAreFixed(u);
    }
    SortFacts(u);
    RootListPermutes(u, Sort(u));
    if |RootList(u)| == 1 {
      OneRootIsFixed(u);
    }
  }

  /** The pattern that tells a list from its sorted form: the roots in order of time. */
  lemma {:induction false} SortedRootsSeparate(u: seq<Event>)
    requires AllTimed(u) && RootList(Sort(u)) != RootList(u)
    ensures RootList(Sort(u)) != []
    ensures var patterns: seq<Pattern> := [RootList(Sort(u))];
            UnsortedConfidence(u, patterns) < DetectedConfidence(u, patterns)
  {
    DifferentRootsAreTwo(u);
    var pattern: Pattern := RootList(Sort(u));
    SubRefl(pattern);
    if Sub(pattern, RootList(u)) {
      SubOfSameLength(pattern, RootList(u));
    }
    FullMatch(Sort(u), pattern);
    FullMatch(u, pattern);
    MatchSeparates(u, Sort(u), pattern);
    BestOfOne(IndexedRoots(Sort(u)), pattern);
    BestOfOne(IndexedRoots(u), pattern);
  }

  lemma {:induction false} MatchSeparates(u: seq<Event>, v: seq<Event>, pattern: Pattern)
    requires |pattern| >= 2
    requires |Matches(IndexedRoots(u), pattern)| < |pattern| == |Matches(IndexedRoots(v), pattern)|
    ensures Confidence(IndexedRoots(u), pattern) < Confidence(IndexedRoots(v), pattern)
  {
    PartialIsLess(u, pattern);
    SelfQuotient(|pattern| as real);
  }

  lemma {:induction false} SelfQuotient(x: real)
    requires x != 0.0
    ensures x / x == 1.0
  {
  }

  lemma {:induction false} PartialIsLess(events: seq<Event>, pattern: Pattern)
    requires |Matches(IndexedRoots(events), pattern)| < |pattern|
    ensures Confidence(IndexedRoots(events), pattern) < 1.0
  {
  }

  lemma {:induction false} RootsAreMembers(events: seq<Event>, r: string)
    ensures r in RootList(events) <==> exists e <- events :: CameoRoot(e.code) == Some(r)
  {
    if events != [] {
      RootListHead(events);
      RootsAreMembers(events[1..], r);
      assert events == [events[0]] + events[1..];
      if CameoRoot(events[0].code) == Some(r) {
        assert RootList(events)[0] == r;
      }
    }
  }

  lemma {:induction false} RootKept(u: seq<Event>, v: seq<Event>, r: string)
    requires (forall e :: e in u ==> e in v) && r in RootList(u)
    ensures r in RootList(v)
  {
    RootsAreMembers(u, r);
    RootsAreMembers(v, r);
  }

  lemma {:induction false} OneRootIsFixed(u: seq<Event>)
    requires |RootList(Sort(u))| == |RootList(u)| == 1
    ensures RootList(Sort(u)) == RootList(u)
  {
    forall e ensures e in Sort(u) ==> e in u {
      SortByMember(TimeOf, u, e);
    }
    RootKept(Sort(u), u, RootList(Sort(u))[0]);
    SameSingleton(RootList(Sort(u)), RootList(u));
  }

  lemma {:induction false} SameSingleton<T>(a: seq<T>, b: seq<T>)
    requires |a| == |b| == 1 && a[0] in b
    ensures a == b
  {
  }

  lemma {:induction false} SameRootsSameConfidence(u: seq<Event>, v: seq<Event>, patterns: seq<Pattern>)
    requires RootList(u) == RootList(v)
    ensures Best(IndexedRoots(u), patterns) == Best(IndexedRoots(v), patterns)
  {
    if patterns != [] {
      SameRootsSameConfidence(u, v, patterns[..|patterns| - 1]);
      SameMatchCount(u, v, patterns[|patterns| - 1]);
    }
  }

  lemma {:induction false} SameMatchCount(u: seq<Event>, v: seq<Event>, pattern: Pattern)
    requires RootList(u) == RootList(v)
    ensures |Matches(IndexedRoots(u), pattern)| == |Matches(IndexedRoots(v), pattern)|
  {
    var n, m := |Matches(IndexedRoots(u), pattern)|, |Matches(IndexedRoots(v), pattern)|;
    CodesAreRootList(u);
    CodesAreRootList(v);
    MatchesLongestPrefix(IndexedRoots(u), pattern, n);
    MatchesLongestPrefix(IndexedRoots(v), pattern, n);
    MatchesLongestPrefix(IndexedRoots(u), pattern, m);
    MatchesLongestPrefix(IndexedRoots(v), pattern, m);
  }

  /** Exactly which lists may grow safely, whatever the patterns: those that are not sorted at all
      because some event is untimed, and those whose roots already stand in order of time. */
  lemma {:induction false} GrowthSafeExactly(u: seq<Event>)
    ensures (forall patterns: seq<Pattern>, v | Sub(u, v) ::
               DetectedConfidence(u, patterns) <= DetectedConfidence(v, patterns))
            <==> !AllTimed(u) || RootList(Sort(u)) == RootList(u)
  {
    if !AllTimed(u) || RootList(Sort(u)) == RootList(u) {
      forall patterns: seq<Pattern>, v | Sub(u, v)
        ensures DetectedConfidence(u, patterns) <= DetectedConfidence(v, patterns)
      {
        if AllTimed(u) {
          SameRootsSameConfidence(u, Sort(u), patterns);
        }
        GrowthSafeForPatterns(u, patterns);
      }
    } else {
      SortedRootsSeparate(u);
      var patterns: seq<Pattern> := [RootList(Sort(u))];
      GrowthSafeForPatterns(u, patterns);
    }
  }

  lemma {:induction false} SomeRoots()
    ensures CameoRoot("15") == Some("15") && CameoRoot("18") == Some("18") && CameoRoot("x") == None
  {
    assert "15"[1..] == "5" && "18"[1..] == "8" && "5"[1..] == "" && "8"[1..] == "";
    assert Digits("5") == "5" && Digits("8") == "8";
    assert LeftTrim("15") == "15" && LeftTrim("18") == "18" && LeftTrim("x") == "x";
    assert Digits("15") == "15" && Digits("18") == "18" && Digits("x") == "";
    assert "15"[..2] == "15" && "18"[..2] == "18";
  }

  lemma {:induction false} RootsOfPair(a: Event, b: Event)
    requires CameoRoot(a.code).Some? && CameoRoot(b.code).Some?
    ensures IndexedRoots([a, b]) == [(0, CameoRoot(a.code).value), (1, CameoRoot(b.code).value)]
  {
    assert [a, b][..1] == [a] && [a][..0] == [];
    assert IndexedRoots([a]) == [(0, CameoRoot(a.code).value)];
  }

  lemma {:induction false} PairConfidence(first: string, second: string)
    requires first != second
    ensures Confidence([(0, first), (1, second)], [first, second]) == 1.0
    ensures Confidence([(0, second), (1, first)], [first, second]) == 0.0
  {
    var p: Pattern := [first, second];
    var good: seq<(nat, string)>, bad: seq<(nat, string)> := [(0, first), (1, second)], [(0, second), (1, first)];
    assert good[1..] == [(1, second)] && bad[1..] == [(1, first)] && p[1..] == [second];
    assert Matches(good[1..], p[1..]) == [1] + Matches([], []);
    assert Matches(good, p) == [0, 1];
    assert Matches(bad[1..], p) == [1] + Matches([], p[1..]);
    assert Matches(bad, p) == [1];
  }

  lemma {:induction false} BestOfOne(roots: seq<(nat, string)>, pattern: Pattern)
    ensures Best(roots, [pattern]) == Confidence(roots, pattern)
  {
    var ps: seq<Pattern> := [pattern];
    assert ps[..0] == [] && Best(roots, ps[..0]) == 0.0;
  }

  /** Of two events only a pattern that starts with their roots is matched. */
  lemma {:induction false} PairMatches(a: Event, b: Event, pattern: Pattern)
    requires |pattern| >= 2 && CameoRoot(a.code).Some? && CameoRoot(b.code).Some?
    requires [CameoRoot(a.code).value, CameoRoot(b.code).value] != pattern[..2]
    ensures Confidence(IndexedRoots([a, b]), pattern) == 0.0
  {
    var roots := IndexedRoots([a, b]);
    RootsOfPair(a, b);
    assert Codes(roots) == [CameoRoot(a.code).value, CameoRoot(b.code).value];
    MatchesLongestPrefix(roots, pattern, 2);
    if Sub(pattern[..2], Codes(roots)) {
      SubOfSameLength(pattern[..2], Codes(roots));
    }
  }

  /** None of the built-in patterns starts with an assault and then a show of force. */
  lemma {:induction false} NoPatternInReverse(a: Event, b: Event)
    requires CameoRoot(a.code) == Some("18") && CameoRoot(b.code) == Some("15")
    ensures Best(IndexedRoots([a, b]), ESCALATION_PATTERNS) == 0.0
  {
    BestIsMaximum(IndexedRoots([a, b]), ESCALATION_PATTERNS);
    forall p <- ESCALATION_PATTERNS ensures Confidence(IndexedRoots([a, b]), p) == 0.0 {
      assert p[0] != "18" || p[1] != "15";
      assert p[..2][0] == p[0] && p[..2][1] == p[1];
      PairMatches(a, b, p);
    }
  }

  lemma {:induction false} BuiltInPairDetected(a: Event, b: Event)
    requires CameoRoot(a.code) == Some("15") && CameoRoot(b.code) == Some("18")
    ensures Best(IndexedRoots([a, b]), ESCALATION_PATTERNS) == 1.0
  {
    var roots := IndexedRoots([a, b]);
    RootsOfPair(a, b);
    PairConfidence("15", "18");
    assert ESCALATION_PATTERNS[3] == ["15", "18"] && ESCALATION_PATTERNS[3] in ESCALATION_PATTERNS;
    BestIsMaximum(roots, ESCALATION_PATTERNS);
    forall p <- ESCALATION_PATTERNS ensures Confidence(roots, p) <= 1.0 {
      PatternConfidence(roots, p);
    }
  }

  lemma {:induction false} SortedPair(a: Event, b: Event)
    requires AllTimed([a, b]) && TimeOf(b) < TimeOf(a)
    ensures Ordered([a, b]) == [b, a]
  {
    assert [a, b][1..] == [b] && [b][1..] == [] && [b] + [] == [b];
    assert InsertBy(TimeOf, b, []) == [b] && SortBy(TimeOf, [b]) == InsertBy(TimeOf, b, SortBy(TimeOf, [b][1..]));
    assert InsertBy(TimeOf, a, [b]) == [b] + InsertBy(TimeOf, a, []);
  }

  /** With the built-in patterns: one untimed event switches sorting off and loses a full match. */
  lemma {:induction false} UntimedEventCanLoseASequence()
    ensures var u := [Event("18", Some(2)), Event("15", Some(1))];
            && Sub(u, u + [Event("x", None)])
            && DetectedConfidence(u, ESCALATION_PATTERNS) == 1.0
            && DetectedConfidence(u + [Event("x", None)], ESCALATION_PATTERNS) == 0.0
  {
    var a, b, x := Event("18", Some(2)), Event("15", Some(1)), Event("x", None);
    SomeRoots();
    SortedPair(a, b);
    BuiltInPairDetected(b, a);
    UntimedRootlessEvent([a, b], x, ESCALATION_PATTERNS);
    NoPatternInReverse(a, b);
  }
}
