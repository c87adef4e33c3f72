/**
 * The range grouper of backend/app/core/result_processor.py: matched issues
 * grouped under `"start-end"` keys, ranges that overlap or touch merged,
 * the groups ordered bottom of the page first, and each group given the
 * slice of the page its lines cover.
 *
 * A Python dictionary is a list of entries in insertion order with distinct
 * keys; reading and writing it go through `Lookup` and `Assign`.
 */
module ResultProcessor {
  import opened Wrappers
  import opened Text
  import opened Issues
  import opened Sorting

  /** One entry `key: [issues]` of a range dictionary. */
  datatype RangeGroup = RangeGroup(key: string, issues: seq<Issue>)

  /** The message of every `ValueError` raised by `map(int, key.split('-'))`. */
  const BadKey := "ValueError: range key is not two integers joined by '-'"

  /** The message of the `IndexError` raised by `key.split('-')[1]`. */
  const ShortKey := "IndexError: list index out of range"

  function Max(a: int, b: int): int { if a >= b then a else b }
  function Min(a: int, b: int): int { if a <= b then a else b }

  // ---------------------------------------------------------------- dictionaries

  /** The keys of a dictionary, in insertion order. */
  function Keys(d: seq<RangeGroup>): (ks: seq<string>)
    ensures |ks| == |d| && forall i :: 0 <= i < |d| ==> ks[i] == d[i].key
  {
    seq(|d|, i requires 0 <= i < |d| => d[i].key)
  }

  ghost predicate DistinctKeys(d: seq<RangeGroup>) {
    forall i, j :: 0 <= i < j < |d| ==> d[i].key != d[j].key
  }

  /** Where `k` sits in the dictionary, if it is a key. */
  function Lookup(d: seq<RangeGroup>, k: string): (r: Option<nat>)
    ensures r.Some? ==> r.value < |d| && d[r.value].key == k
    ensures r.None? <==> forall i :: 0 <= i < |d| ==> d[i].key != k
  {
    if d == [] then None
    else if d[|d| - 1].key == k then Some(|d| - 1)
    else Lookup(d[..|d| - 1], k)
  }

  /** `d[k] = v`: an existing key keeps its place and takes the new value; a new key goes last. */
  function Assign(d: seq<RangeGroup>, k: string, v: seq<Issue>): (r: seq<RangeGroup>)
    ensures DistinctKeys(d) ==> DistinctKeys(r)
  {
    match Lookup(d, k)
    case Some(p) => d[p := RangeGroup(k, v)]
    case None => d + [RangeGroup(k, v)]
  }

  /** `dict(items)`: the items assigned one after another. */
  function FromItems(items: seq<RangeGroup>): (r: seq<RangeGroup>)
    ensures DistinctKeys(r)
  {
    if items == [] then []
    else
      var last := items[|items| - 1];
      Assign(FromItems(items[..|items| - 1]), last.key, last.issues)
  }

  /** Items with distinct keys make a dictionary of the same entries in the same order. */
  lemma {:induction false} FromDistinctItems(items: seq<RangeGroup>)
    requires DistinctKeys(items)
    ensures FromItems(items) == items
  {
    if items != [] {
      var init, last := items[..|items| - 1], items[|items| - 1];
      FromDistinctItems(init);
      assert Lookup(init, last.key).None?;
      assert init + [last] == items;
    }
  }

  /** The number of issues held by all the groups. */
  function Total(d: seq<RangeGroup>): nat {
    if d == [] then 0 else Total(d[..|d| - 1]) + |d[|d| - 1].issues|
  }

  // ---------------------------------------------------------------- range keys

  /** `f"{start}-{end}"`. */
  function RangeKey(start: int, end: int): string {
    IntToString(start) + "-" + IntToString(end)
  }

  /**
   * `start, end = map(int, key.split('-'))`: exactly two parts, each one
   * an integer as `int()` reads it; anything else raises `ValueError`.
   */
  function ParseKey(key: string): (r: Result<(int, int)>)
    ensures r.Success? ==> r.value.0 >= 0 && r.value.1 >= 0
    ensures r.Failure? ==> r.error == BadKey
  {
    var parts := Split(key, '-');
    if |parts| != 2 then Failure(BadKey)
    else
      match (ParseInt(parts[0]), ParseInt(parts[1]))
      case (Some(s), Some(e)) =>
        NoMinusParses(parts[0]);
        NoMinusParses(parts[1]);
        Success((s, e))
      case _ => Failure(BadKey)
  }

  /** A part of a key split at '-' has no '-' left, so `int()` cannot read a negative number from it. */
  lemma NoMinusParses(t: string)
    requires '-' !in t && ParseInt(t).Some?
    ensures ParseInt(t).value >= 0
  {
    var u := Strip(t);
    var a := TrimStart(t);
    assert u == a[..|u|] && a == t[|t| - |a|..];
    if |u| >= 1 {
      assert u[0] == t[|t| - |a|];
    }
    UnsignedParse(u);
  }

  /** Text that does not start with '-' reads as a non-negative number, if at all. */
  lemma UnsignedParse(u: string)
    requires u == [] || u[0] != '-'
    requires ParseSigned(u).Some?
    ensures ParseSigned(u).value >= 0
  {
  }

  /** The key of a range on non-negative lines parses back to that range. */
  lemma KeyRoundTrip(start: nat, end: nat)
    ensures ParseKey(RangeKey(start, end)) == Success((start, end))
  {
    var a, b := NatToString(start), NatToString(end);
    DigitsHaveNoMinus(a);
    DigitsHaveNoMinus(b);
    SplitPair(a, b, '-');
    assert RangeKey(start, end) == a + ['-'] + b;
    ParseNatString(start);
    ParseNatString(end);
  }

  lemma DigitsHaveNoMinus(a: string)
    requires forall i :: 0 <= i < |a| ==> IsDigit(a[i])
    ensures '-' !in a
  {
    forall i | 0 <= i < |a|
      ensures a[i] != '-'
    {
      assert IsDigit(a[i]);
    }
  }

  /**
   * A key parses exactly when both of its lines are non-negative: a minus
   * sign adds an empty or an extra part, and `int('')` raises.
   */
  lemma KeyParsesIffNonNegative(start: int, end: int)
    ensures ParseKey(RangeKey(start, end)).Success? <==> start >= 0 && end >= 0
    ensures start >= 0 && end >= 0 ==> ParseKey(RangeKey(start, end)).value == (start, end)
  {
    if start >= 0 && end >= 0 {
      KeyRoundTrip(start, end);
    } else if start < 0 {
      NegativeStartFails(start, end);
    } else {
      NegativeEndFails(start, end);
    }
  }

  /** A negative start line leaves the key's first part empty. */
  lemma NegativeStartFails(start: int, end: int)
    requires start < 0
    ensures ParseKey(RangeKey(start, end)).Failure?
  {
    var key := RangeKey(start, end);
    var a := IntToString(start);
    var b := IntToString(end);
    assert key == a + ['-'] + b;
    assert a == [] + ['-'] + NatToString(-start);
    SplitAppend([], NatToString(-start), '-');
    SplitAppend(a, b, '-');
    assert Split(key, '-')[0] == [];
    assert ParseInt([]).None? by {
      assert Strip([]) == [];
    }
  }

  /** A negative end line after a non-negative start splits the key into three parts or more. */
  lemma NegativeEndFails(start: int, end: int)
    requires start >= 0 && end < 0
    ensures ParseKey(RangeKey(start, end)).Failure?
  {
    var key := RangeKey(start, end);
    var c := NatToString(start);
    var b := IntToString(end);
    assert key == c + ['-'] + b;
    DigitsHaveNoMinus(c);
    assert b == [] + ['-'] + NatToString(-end);
    SplitAppend([], NatToString(-end), '-');
    SplitAppend(c, b, '-');
    assert Split(c, '-') == [c];
    assert |Split(key, '-')| >= 3;
  }

  /** Distinct ranges on non-negative lines have distinct keys. */
  lemma KeyInjective(s1: nat, e1: nat, s2: nat, e2: nat)
    ensures RangeKey(s1, e1) == RangeKey(s2, e2) <==> s1 == s2 && e1 == e2
  {
    KeyRoundTrip(s1, e1);
    KeyRoundTrip(s2, e2);
  }

  /** `int(key.split('-')[i])`, as `sort_ranges_by_size` and `get_line_ranges_for_llm` read a key. */
  function KeyPart(key: string, i: nat): (r: Result<int>)
  {
    var parts := Split(key, '-');
    if i >= |parts| then Failure(ShortKey)
    else match ParseInt(parts[i])
      case Some(v) => Success(v)
      case None => Failure(BadKey)
  }

  /** A key that unpacks into two integers yields the same two integers read part by part. */
  lemma KeyPartsAgree(key: string)
    requires ParseKey(key).Success?
    ensures KeyPart(key, 0) == Success(ParseKey(key).value.0)
    ensures KeyPart(key, 1) == Success(ParseKey(key).value.1)
  {
  }

  // ---------------------------------------------------------------- extract_line_ranges

  /** A matched issue with both lines set: the only kind `extract_line_ranges` keeps. */
  predicate Located(it: Issue) {
    it.matchStatus == Matched && it.matchLineStart.Some? && it.matchLineEnd.Some?
  }

  function KeyOf(it: Issue): string
    requires Located(it)
  {
    RangeKey(it.matchLineStart.value, it.matchLineEnd.value)
  }

  /** The keys of the located issues, in input order, repeats included. */
  function LocatedKeys(issues: seq<Issue>): seq<string> {
    if issues == [] then []
    else
      var last := issues[|issues| - 1];
      LocatedKeys(issues[..|issues| - 1]) + (if Located(last) then [KeyOf(last)] else [])
  }

  /** The located issues whose key is `k`, in input order. */
  function WithRangeKey(issues: seq<Issue>, k: string): seq<Issue> {
    if issues == [] then []
    else
      var last := issues[|issues| - 1];
      WithRangeKey(issues[..|issues| - 1], k) + (if Located(last) && KeyOf(last) == k then [last] else [])
  }

  /**
   * The selection under `k` holds exactly the located issues with key `k`,
   * and is empty exactly when no located issue has that key.
   */
  lemma {:induction false} WithRangeKeyMembers(issues: seq<Issue>, k: string)
    ensures forall x :: x in WithRangeKey(issues, k) <==> x in issues && Located(x) && KeyOf(x) == k
    ensures k in LocatedKeys(issues) <==> WithRangeKey(issues, k) != []
  {
    if issues != [] {
      var init, last := issues[..|issues| - 1], issues[|issues| - 1];
      WithRangeKeyMembers(init, k);
      assert forall x :: x in issues <==> x in init || x == last;
    }
  }

  /**
   * What `extract_line_ranges` returns: one entry per distinct key, in the
   * order the keys first occur, holding the located issues with that key in
   * input order.
   */
  function Grouped(issues: seq<Issue>): (d: seq<RangeGroup>)
    ensures Keys(d) == Dedup(LocatedKeys(issues))
  {
    var keys := Dedup(LocatedKeys(issues));
    seq(|keys|, i requires 0 <= i < |keys| => RangeGroup(keys[i], WithRangeKey(issues, keys[i])))
  }

  /** `extract_line_ranges`. */
  method ExtractLineRanges(issues: seq<Issue>) returns (d: seq<RangeGroup>)
    ensures d == Grouped(issues)
  {
    d := [];
    for i := 0 to |issues|
      invariant d == Grouped(issues[..i])
    {
      var it := issues[i];
      assert issues[..i + 1] == issues[..i] + [it];
      GroupedSnoc(issues[..i], it);
      if it.matchStatus == Matched && it.matchLineStart.Some? && it.matchLineEnd.Some? {
        var key := RangeKey(it.matchLineStart.value, it.matchLineEnd.value);
        match Lookup(d, key)
        case Some(p) =>
          d := d[p := RangeGroup(key, d[p].issues + [it])];
        case None =>
          d := d + [RangeGroup(key, [it])];
      }
    }
    assert issues[..|issues|] == issues;
  }

  /** One more issue either leaves the groups alone, joins the group of its key, or opens a new group last. */
  lemma GroupedSnoc(s: seq<Issue>, it: Issue)
    ensures var g, g' := Grouped(s), Grouped(s + [it]);
      if !Located(it) then g' == g
      else match Lookup(g, KeyOf(it))
        case Some(p) => g' == g[p := RangeGroup(KeyOf(it), g[p].issues + [it])]
        case None => g' == g + [RangeGroup(KeyOf(it), [it])]
  {
    SnocUnfolds(s, it);
    if !Located(it) {
      GroupedSkip(s, it);
    } else {
      var k := KeyOf(it);
      DedupSnoc(LocatedKeys(s), k);
      DedupEnumerates(LocatedKeys(s));
      match Lookup(Grouped(s), k)
      case Some(p) => GroupedJoin(s, it, k, p);
      case None => GroupedNew(s, it, k);
    }
  }

  lemma GroupedSkip(s: seq<Issue>, it: Issue)
    requires !Located(it)
    requires LocatedKeys(s + [it]) == LocatedKeys(s)
    requires forall k :: WithRangeKey(s + [it], k) == WithRangeKey(s, k)
    ensures Grouped(s + [it]) == Grouped(s)
  {
    var g, g' := Grouped(s), Grouped(s + [it]);
    assert forall i :: 0 <= i < |g| ==> g'[i] == g[i];
  }

  lemma GroupedJoin(s: seq<Issue>, it: Issue, k: string, p: nat)
    requires var keys := Dedup(LocatedKeys(s));
      && Dedup(LocatedKeys(s + [it])) == keys
      && p < |keys| && keys[p] == k
      && forall i, j :: 0 <= i < j < |keys| ==> keys[i] != keys[j]
    requires forall k' :: WithRangeKey(s + [it], k') == WithRangeKey(s, k') + (if k == k' then [it] else [])
    ensures Grouped(s + [it]) == Grouped(s)[p := RangeGroup(k, Grouped(s)[p].issues + [it])]
  {
    var g, g' := Grouped(s), Grouped(s + [it]);
    var keys := Dedup(LocatedKeys(s));
    var h := g[p := RangeGroup(k, g[p].issues + [it])];
    assert |g'| == |h|;
    forall i | 0 <= i < |g| ensures g'[i] == h[i] {
      if i != p {
        assert keys[i] != k;
        assert WithRangeKey(s + [it], keys[i]) == WithRangeKey(s, keys[i]);
      } else {
        assert WithRangeKey(s + [it], k) == WithRangeKey(s, k) + [it];
      }
    }
  }

  lemma GroupedNew(s: seq<Issue>, it: Issue, k: string)
    requires var keys := Dedup(LocatedKeys(s));
      && Dedup(LocatedKeys(s + [it])) == keys + [k]
      && k !in keys
    requires forall k' :: WithRangeKey(s + [it], k') == WithRangeKey(s, k') + (if k == k' then [it] else [])
    ensures Grouped(s + [it]) == Grouped(s) + [RangeGroup(k, [it])]
  {
    var g, g' := Grouped(s), Grouped(s + [it]);
    var h := g + [RangeGroup(k, [it])];
    assert |g'| == |h|;
    forall i | 0 <= i < |g'| ensures g'[i] == h[i] {
      GroupedNewAt(s, it, k, i);
    }
  }

  /** One entry of `GroupedNew`: an old key keeps its selection, the new key selects `it` alone. */
  lemma GroupedNewAt(s: seq<Issue>, it: Issue, k: string, i: nat)
    requires var keys := Dedup(LocatedKeys(s));
      && Dedup(LocatedKeys(s + [it])) == keys + [k]
      && k !in keys
    requires forall k' :: WithRangeKey(s + [it], k') == WithRangeKey(s, k') + (if k == k' then [it] else [])
    requires i <= |Dedup(LocatedKeys(s))|
    ensures i < |Grouped(s + [it])| && Grouped(s + [it])[i] == (Grouped(s) + [RangeGroup(k, [it])])[i]
  {
    var keys := Dedup(LocatedKeys(s));
    GroupedAt(s + [it], i);
    if i < |keys| {
      GroupedAt(s, i);
      assert keys[i] in keys;
      assert WithRangeKey(s + [it], keys[i]) == WithRangeKey(s, keys[i]) + [];
    } else {
      NewKeyUnselected(s, k);
      assert WithRangeKey(s + [it], k) == [] + [it];
    }
  }

  /** One entry of `Grouped`: the `i`-th distinct key with its selection. */
  lemma GroupedAt(s: seq<Issue>, i: nat)
    requires i < |Dedup(LocatedKeys(s))|
    ensures var keys := Dedup(LocatedKeys(s));
      i < |Grouped(s)| && Grouped(s)[i] == RangeGroup(keys[i], WithRangeKey(s, keys[i]))
  {
  }

  /** A key that no located issue has selects nothing. */
  lemma NewKeyUnselected(s: seq<Issue>, k: string)
    requires k !in Dedup(LocatedKeys(s))
    ensures WithRangeKey(s, k) == []
  {
    DedupEnumerates(LocatedKeys(s));
    WithRangeKeyMembers(s, k);
  }

  /** The located keys and the selections of `s + [it]`, one step from those of `s`. */
  lemma SnocUnfolds(s: seq<Issue>, it: Issue)
    ensures LocatedKeys(s + [it]) == LocatedKeys(s) + (if Located(it) then [KeyOf(it)] else [])
    ensures forall k :: WithRangeKey(s + [it], k) == WithRangeKey(s, k) + (if Located(it) && KeyOf(it) == k then [it] else [])
  {
    assert (s + [it])[..|s|] == s;
  }

  /** Adding a string to a list adds it to the de-duplication when it is new. */
  lemma DedupSnoc(s: seq<string>, k: string)
    ensures Dedup(s + [k]) == if k in Dedup(s) then Dedup(s) else Dedup(s) + [k]
  {
    assert (s + [k])[..|s|] == s;
  }

  /**
   * The groups `extract_line_ranges` returns have distinct keys; each holds
   * at least one issue and only located issues with its key; and every
   * located issue is in the group of its key.
   */
  lemma GroupedShape(issues: seq<Issue>)
    ensures var g := Grouped(issues);
      && DistinctKeys(g)
      && (forall i :: 0 <= i < |g| ==> g[i].issues != [])
      && (forall i, x :: 0 <= i < |g| && x in g[i].issues ==> x in issues && Located(x) && KeyOf(x) == g[i].key)
      && (forall x :: x in issues && Located(x) ==> Lookup(g, KeyOf(x)).Some? && x in g[Lookup(g, KeyOf(x)).value].issues)
  {
    var g := Grouped(issues);
    var keys := Dedup(LocatedKeys(issues));
    DedupEnumerates(LocatedKeys(issues));
    forall i | 0 <= i < |g|
      ensures g[i].issues != []
      ensures forall x :: x in g[i].issues ==> x in issues && Located(x) && KeyOf(x) == g[i].key
    {
      WithRangeKeyMembers(issues, keys[i]);
    }
    forall x | x in issues && Located(x)
      ensures Lookup(g, KeyOf(x)).Some? && x in g[Lookup(g, KeyOf(x)).value].issues
    {
      WithRangeKeyMembers(issues, KeyOf(x));
      assert KeyOf(x) in keys;
      var p := Lookup(g, KeyOf(x)).value;
      assert keys[p] == KeyOf(x);
    }
  }

  /** Grouping loses no issue: the groups hold as many issues as there are located issues. */
  lemma {:induction false} GroupedTotal(issues: seq<Issue>)
    ensures Total(Grouped(issues)) == |LocatedKeys(issues)|
  {
    if issues != [] {
      var init, it := issues[..|issues| - 1], issues[|issues| - 1];
      assert init + [it] == issues;
      GroupedTotal(init);
      GroupedSnoc(init, it);
      SnocUnfolds(init, it);
      var g := Grouped(init);
      if Located(it) {
        match Lookup(g, KeyOf(it))
        case Some(p) =>
          TotalUpdate(g, p, RangeGroup(KeyOf(it), g[p].issues + [it]));
        case None =>
          TotalSnoc(g, RangeGroup(KeyOf(it), [it]));
      }
    }
  }

  lemma TotalSnoc(d: seq<RangeGroup>, x: RangeGroup)
    ensures Total(d + [x]) == Total(d) + |x.issues|
  {
    assert (d + [x])[..|d|] == d;
  }

  /** Replacing one group changes the total by the change in that group's size. */
  lemma {:induction false} TotalUpdate(d: seq<RangeGroup>, p: nat, x: RangeGroup)
    requires p < |d|
    ensures Total(d[p := x]) == Total(d) - |d[p].issues| + |x.issues|
  {
    var init := d[..|d| - 1];
    var d' := d[p := x];
    if p == |d| - 1 {
      assert d'[..|d| - 1] == init;
    } else {
      TotalUpdate(init, p, x);
      assert d'[..|d| - 1] == init[p := x];
    }
  }

  // ---------------------------------------------------------------- merge_overlapping_ranges

  /** A range read back from its key, with the issues of its group. */
  datatype Span = Span(start: int, end: int, issues: seq<Issue>)

  function SpanStart(x: Span): int { x.start }

  /**
   * The first loop of `merge_overlapping_ranges`: each key read into a
   * range by `read`, or the error of the first key it cannot read.
   */
  function ReadAll(d: seq<RangeGroup>, read: string -> Result<(int, int)>): (r: Result<seq<Span>>)
    ensures r.Success? ==> |r.value| == |d|
  {
    if d == [] then Success([])
    else
      var spans :- ReadAll(d[..|d| - 1], read);
      var range :- read(d[|d| - 1].key);
      Success(spans + [Span(range.0, range.1, d[|d| - 1].issues)])
  }

  /** The ranges `merge_overlapping_ranges` reads from the keys, or its `ValueError`. */
  function ParseAll(d: seq<RangeGroup>): (r: Result<seq<Span>>)
    ensures r.Success? ==> |r.value| == |d|
  {
    ReadAll(d, ParseKey)
  }

  /**
   * When every key can be read, the ranges are the keys' ranges, one per
   * entry and in the same order, each with its entry's issues.
   */
  lemma {:induction false} ReadAllSpans(d: seq<RangeGroup>, read: string -> Result<(int, int)>)
    requires forall i :: 0 <= i < |d| ==> read(d[i].key).Success?
    ensures ReadAll(d, read).Success? && |ReadAll(d, read).value| == |d|
    ensures forall i :: 0 <= i < |d| ==> var x := ReadAll(d, read).value[i];
      x.start == read(d[i].key).value.0 && x.end == read(d[i].key).value.1 && x.issues == d[i].issues
  {
    if d != [] {
      var init := d[..|d| - 1];
      assert forall i :: 0 <= i < |init| ==> init[i] == d[i];
      ReadAllSpans(init, read);
    }
  }

  /** Once a key cannot be read, the loop's result is that key's error, whatever follows. */
  lemma {:induction false} ReadAllFailStays(d: seq<RangeGroup>, m: nat, read: string -> Result<(int, int)>)
    requires m <= |d| && ReadAll(d[..m], read).Failure?
    ensures ReadAll(d, read) == ReadAll(d[..m], read)
    decreases |d| - m
  {
    if m < |d| {
      var init := d[..|d| - 1];
      assert init[..m] == d[..m];
      ReadAllFailStays(init, m, read);
    } else {
      assert d[..m] == d;
    }
  }

  /** The next range overlaps the current one or starts on the line just after it. */
  predicate Touches(current: Span, x: Span) {
    x.start <= current.end + 1
  }

  /** The current range extended by the next one: the end grows to cover it, and its issues are added. */
  function Extend(current: Span, x: Span): Span {
    Span(current.start, Max(current.end, x.end), current.issues + x.issues)
  }

  /** One turn of the merge loop, on the ranges saved so far followed by the current one. */
  function StepSpans(gs: seq<Span>, x: Span): (r: seq<Span>)
    requires gs != []
    ensures |gs| <= |r| <= |gs| + 1
  {
    var current := gs[|gs| - 1];
    if Touches(current, x) then gs[..|gs| - 1] + [Extend(current, x)] else gs + [x]
  }

  /** The saved ranges followed by the current one after the loop has seen `t[..k]`. */
  function Fold(t: seq<Span>, k: nat): (gs: seq<Span>)
    requires 1 <= k <= |t|
    ensures 1 <= |gs| <= k
  {
    if k == 1 then [t[0]] else StepSpans(Fold(t, k - 1), t[k - 1])
  }

  /** The ranges as the entries `f"{start}-{end}": issues` of the rebuilt dictionary. */
  function AsItems(gs: seq<Span>): (items: seq<RangeGroup>)
    ensures |items| == |gs|
    ensures forall i :: 0 <= i < |gs| ==> items[i] == RangeGroup(RangeKey(gs[i].start, gs[i].end), gs[i].issues)
  {
    seq(|gs|, i requires 0 <= i < |gs| => RangeGroup(RangeKey(gs[i].start, gs[i].end), gs[i].issues))
  }

  /**
   * The example page of the test data: seven issues on lines 10-16, 13-20,
   * 25-30, 28-35, 40-45, 50-60 and 55-58 (already in start order) merge into
   * 10-20, 25-35, 40-45 and 50-60, each merged range holding the issues of
   * the ranges it absorbed, in order.
   */
  lemma DummyMerge(i1: seq<Issue>, i2: seq<Issue>, i3: seq<Issue>, i4: seq<Issue>, i5: seq<Issue>, i6: seq<Issue>, i7: seq<Issue>)
    ensures var t := [Span(10, 16, i1), Span(13, 20, i2), Span(25, 30, i3), Span(28, 35, i4),
                      Span(40, 45, i5), Span(50, 60, i6), Span(55, 58, i7)];
      Fold(SortBy(t, SpanStart), |t|)
        == [Span(10, 20, i1 + i2), Span(25, 35, i3 + i4), Span(40, 45, i5), Span(50, 60, i6 + i7)]
  {
    var t := DummyData(i1, i2, i3, i4, i5, i6, i7);
    DummyFold(t, Span(10, 20, i1 + i2), Span(25, 35, i3 + i4), Span(50, 60, i6 + i7));
  }

  /** The test data is in start order, touches where it merges and stands apart elsewhere. */
  lemma DummyData(i1: seq<Issue>, i2: seq<Issue>, i3: seq<Issue>, i4: seq<Issue>, i5: seq<Issue>, i6: seq<Issue>, i7: seq<Issue>)
    returns (t: seq<Span>)
    ensures t == [Span(10, 16, i1), Span(13, 20, i2), Span(25, 30, i3), Span(28, 35, i4),
                  Span(40, 45, i5), Span(50, 60, i6), Span(55, 58, i7)]
    ensures SortBy(t, SpanStart) == t && |t| == 7
    ensures DummyShape(t, Span(10, 20, i1 + i2), Span(25, 35, i3 + i4), Span(50, 60, i6 + i7))
  {
    t := [Span(10, 16, i1), Span(13, 20, i2), Span(25, 30, i3), Span(28, 35, i4),
          Span(40, 45, i5), Span(50, 60, i6), Span(55, 58, i7)];
    AdjacentSorted(t, SpanStart);
    SortSortedUnchanged(t, SpanStart);
  }

  /** The merge loop over the test data, one turn at a time. */
  lemma DummyFold(t: seq<Span>, a: Span, b: Span, last: Span)
    requires DummyShape(t, a, b, last)
    ensures Fold(t, 7) == [a, b, t[4], last]
  {
    DummySteps(t, a, b, last);
    FoldNext(t, 2, [t[0]], [a]);
    FoldNext(t, 3, [a], [a, t[2]]);
    FoldNext(t, 4, [a, t[2]], [a, b]);
    FoldNext(t, 5, [a, b], [a, b, t[4]]);
    FoldNext(t, 6, [a, b, t[4]], [a, b, t[4], t[5]]);
    FoldNext(t, 7, [a, b, t[4], t[5]], [a, b, t[4], last]);
  }

  /** The test data: pairs that touch and ranges that stand apart. */
  predicate DummyShape(t: seq<Span>, a: Span, b: Span, last: Span) {
    && |t| == 7
    && a == Extend(t[0], t[1]) && t[1].start <= t[0].end + 1
    && t[2].start > a.end + 1
    && b == Extend(t[2], t[3]) && t[3].start <= t[2].end + 1
    && t[4].start > b.end + 1 && t[5].start > t[4].end + 1
    && last == Extend(t[5], t[6]) && t[6].start <= t[5].end + 1
  }

  /** Each turn of the merge loop over the test data. */
  lemma DummySteps(t: seq<Span>, a: Span, b: Span, last: Span)
    requires DummyShape(t, a, b, last)
    ensures StepSpans([t[0]], t[1]) == [a]
    ensures StepSpans([a], t[2]) == [a, t[2]]
    ensures StepSpans([a, t[2]], t[3]) == [a, b]
    ensures StepSpans([a, b], t[4]) == [a, b, t[4]]
    ensures StepSpans([a, b, t[4]], t[5]) == [a, b, t[4], t[5]]
    ensures StepSpans([a, b, t[4], t[5]], t[6]) == [a, b, t[4], last]
  {
    assert [a, t[2]][..1] == [a];
    assert [a, b, t[4], t[5]][..3] == [a, b, t[4]];
  }

  /** One more turn of the merge loop, from a known state. */
  lemma FoldNext(t: seq<Span>, k: nat, prev: seq<Span>, next: seq<Span>)
    requires 2 <= k <= |t| && Fold(t, k - 1) == prev && StepSpans(prev, t[k - 1]) == next
    ensures Fold(t, k) == next
  {
  }

  /** What `merge_overlapping_ranges` returns. */
  function MergeRanges(d: seq<RangeGroup>): Result<seq<RangeGroup>> {
    if d == [] then Success([])
    else
      var spans :- ParseAll(d);
      var sorted := SortBy(spans, SpanStart);
      Success(FromItems(AsItems(Fold(sorted, |sorted|))))
  }

  /**
   * The example the function documents: 10-20 and 13-14 merge into 10-20,
   * which holds the issues of both, in order.
   */
  lemma NestedRangesMerge(a: seq<Issue>, b: seq<Issue>)
    ensures var t := [Span(10, 20, a), Span(13, 14, b)];
      Fold(SortBy(t, SpanStart), |t|) == [Span(10, 20, a + b)]
  {
    var t := [Span(10, 20, a), Span(13, 14, b)];
    AdjacentSorted(t, SpanStart);
    SortSortedUnchanged(t, SpanStart);
  }

  /** `merge_overlapping_ranges`. */
  method MergeOverlappingRanges(d: seq<RangeGroup>) returns (r: Result<seq<RangeGroup>>)
    ensures r == MergeRanges(d)
    ensures d == [] ==> r == Success([])
  {
    if d == [] {
      return Success([]);
    }
    var ranges :- ReadRanges(d);
    ranges := SortBy(ranges, SpanStart);
    var merged := MergeSortedSpans(ranges);
    var result := Rebuild(merged);
    return Success(result);
  }

  /** The first loop of `merge_overlapping_ranges`: every key read back into its range. */
  method ReadRanges(d: seq<RangeGroup>) returns (r: Result<seq<Span>>)
    ensures r == ParseAll(d)
  {
    var ranges: seq<Span> := [];
    for i := 0 to |d|
      invariant ReadAll(d[..i], ParseKey) == Success(ranges)
    {
      assert d[..i + 1][..i] == d[..i];
      var parsed := ParseKey(d[i].key);
      if parsed.Failure? {
        ReadAllFailStays(d, i + 1, ParseKey);
        return Failure(parsed.error);
      }
      ranges := ranges + [Span(parsed.value.0, parsed.value.1, d[i].issues)];
    }
    assert d[..|d|] == d;
    return Success(ranges);
  }

  /** The merge loop of `merge_overlapping_ranges`, over the ranges in start order. */
  method MergeSortedSpans(ranges: seq<Span>) returns (merged: seq<Span>)
    requires ranges != []
    ensures merged == Fold(ranges, |ranges|)
  {
    merged := [];
    var currentStart, currentEnd, currentIssues := ranges[0].start, ranges[0].end, ranges[0].issues;
    for k := 1 to |ranges|
      invariant Fold(ranges, k) == merged + [Span(currentStart, currentEnd, currentIssues)]
    {
      var x := ranges[k];
      if x.start <= currentEnd + 1 {
        currentEnd := Max(currentEnd, x.end);
        currentIssues := currentIssues + x.issues;
      } else {
        merged := merged + [Span(currentStart, currentEnd, currentIssues)];
        currentStart, currentEnd, currentIssues := x.start, x.end, x.issues;
      }
    }
    merged := merged + [Span(currentStart, currentEnd, currentIssues)];
  }

  /** The last loop of `merge_overlapping_ranges`: the dictionary rebuilt from the merged ranges. */
  method Rebuild(merged: seq<Span>) returns (result: seq<RangeGroup>)
    ensures result == FromItems(AsItems(merged))
  {
    result := [];
    for i := 0 to |merged|
      invariant result == FromItems(AsItems(merged[..i]))
    {
      assert AsItems(merged[..i + 1])[..i] == AsItems(merged[..i]);
      result := Assign(result, RangeKey(merged[i].start, merged[i].end), merged[i].issues);
    }
    assert merged[..|merged|] == merged;
  }

  // ---------------------------------------------------------------- properties of the merge

  /** Every range starts no later than it ends. */
  ghost predicate WellFormedSpans(t: seq<Span>) {
    forall i :: 0 <= i < |t| ==> t[i].start <= t[i].end
  }

  /** Each range ends more than one line before any later range starts: no two overlap or touch. */
  ghost predicate Separated(gs: seq<Span>) {
    forall i, j :: 0 <= i < j < |gs| ==> gs[i].end + 1 < gs[j].start
  }

  predicate InsideSpan(x: Span, g: Span) {
    g.start <= x.start && x.end <= g.end
  }

  ghost predicate CoveredSpan(x: Span, gs: seq<Span>) {
    exists j :: 0 <= j < |gs| && InsideSpan(x, gs[j])
  }

  /** The number of issues held by the ranges. */
  function SpanTotal(t: seq<Span>): nat {
    if t == [] then 0 else SpanTotal(t[..|t| - 1]) + |t[|t| - 1].issues|
  }

  /**
   * On ranges in start order the merge loop keeps its saved ranges and the
   * current one apart, and the current one starts no later than the range
   * just read.
   */
  lemma {:induction false} FoldSeparated(t: seq<Span>, k: nat)
    requires 1 <= k <= |t| && SortedBy(t, SpanStart)
    ensures var gs := Fold(t, k); Separated(gs) && gs[|gs| - 1].start <= t[k - 1].start
  {
    if k > 1 {
      FoldSeparated(t, k - 1);
      var gs, x := Fold(t, k - 1), t[k - 1];
      assert SpanStart(t[k - 2]) <= SpanStart(x);
      var last := gs[|gs| - 1];
      var r := Fold(t, k);
      if Touches(last, x) {
        forall i, j | 0 <= i < j < |r| ensures r[i].end + 1 < r[j].start {
          assert r[i] == gs[i];
          if j < |gs| - 1 {
            assert r[j] == gs[j];
          } else {
            assert r[j].start == last.start;
          }
        }
      } else {
        forall i, j | 0 <= i < j < |r| ensures r[i].end + 1 < r[j].start {
          assert r[i] == gs[i];
          if j < |gs| {
            assert r[j] == gs[j];
          } else if i < |gs| - 1 {
            assert gs[i].end + 1 < last.start;
          }
        }
      }
    }
  }

  /** Every range the loop has read lies inside one of the ranges it has built. */
  lemma {:induction false} FoldCovers(t: seq<Span>, k: nat, m: nat)
    requires m < k <= |t| && SortedBy(t, SpanStart)
    ensures CoveredSpan(t[m], Fold(t, k))
  {
    if k == 1 {
      assert InsideSpan(t[0], Fold(t, 1)[0]);
    } else {
      FoldLastBefore(t, k - 1);
      if m < k - 1 {
        FoldCovers(t, k - 1, m);
      }
      StepCovers(Fold(t, k - 1), t[k - 1], t[m]);
    }
  }

  /** The current range starts no later than the range just read. */
  lemma {:induction false} FoldLastStart(t: seq<Span>, k: nat)
    requires 1 <= k <= |t| && SortedBy(t, SpanStart)
    ensures var gs := Fold(t, k); gs[|gs| - 1].start <= t[k - 1].start
  {
    if k > 1 {
      FoldLastStart(t, k - 1);
      SortedStep(t, k - 1);
      StepLast(Fold(t, k - 1), t[k - 1]);
    }
  }

  /** The current range starts no later than the next range to read. */
  lemma FoldLastBefore(t: seq<Span>, k: nat)
    requires 1 <= k < |t| && SortedBy(t, SpanStart)
    ensures var gs := Fold(t, k); gs[|gs| - 1].start <= t[k].start
  {
    FoldLastStart(t, k);
    SortedStep(t, k);
  }

  /** The range the loop carries on with after a turn. */
  lemma StepLast(gs: seq<Span>, x: Span)
    requires gs != []
    ensures var r := StepSpans(gs, x);
      r[|r| - 1] == if Touches(gs[|gs| - 1], x) then Extend(gs[|gs| - 1], x) else x
  {
  }

  lemma SortedStep(t: seq<Span>, k: nat)
    requires 1 <= k < |t| && SortedBy(t, SpanStart)
    ensures t[k - 1].start <= t[k].start
  {
    assert SpanStart(t[k - 1]) <= SpanStart(t[k]);
  }

  /** One turn of the loop keeps every range it had covered covered, and covers the range it reads. */
  lemma StepCovers(gs: seq<Span>, x: Span, y: Span)
    requires gs != [] && gs[|gs| - 1].start <= x.start
    requires y == x || CoveredSpan(y, gs)
    ensures CoveredSpan(y, StepSpans(gs, x))
  {
    var n := |gs| - 1;
    var r := StepSpans(gs, x);
    if y == x {
      assert InsideSpan(x, r[|r| - 1]);
    } else {
      var j :| 0 <= j < |gs| && InsideSpan(y, gs[j]);
      if j < n {
        assert r[j].start == gs[j].start && r[j].end == gs[j].end;
      } else if Touches(gs[n], x) {
        assert InsideSpan(y, r[n]);
      } else {
        assert r[n].start == gs[n].start && r[n].end == gs[n].end;
      }
    }
  }

  /** Merging well-formed ranges builds well-formed ranges. */
  lemma {:induction false} FoldWellFormed(t: seq<Span>, k: nat)
    requires 1 <= k <= |t| && WellFormedSpans(t)
    ensures WellFormedSpans(Fold(t, k))
  {
    if k > 1 {
      FoldWellFormed(t, k - 1);
      StepWellFormed(Fold(t, k - 1), t[k - 1]);
    }
  }

  /** One turn of the loop keeps the ranges well formed. */
  lemma StepWellFormed(gs: seq<Span>, x: Span)
    requires gs != [] && WellFormedSpans(gs) && x.start <= x.end
    ensures WellFormedSpans(StepSpans(gs, x))
  {
    var r := StepSpans(gs, x);
    forall i | 0 <= i < |r| ensures r[i].start <= r[i].end {
      if i < |gs| - 1 {
        assert r[i] == gs[i];
      }
    }
  }

  /** The loop loses no issue: the built ranges hold all the issues of the ranges read. */
  lemma {:induction false} FoldTotal(t: seq<Span>, k: nat)
    requires 1 <= k <= |t|
    ensures SpanTotal(Fold(t, k)) == SpanTotal(t[..k])
  {
    assert t[..k] == t[..k - 1] + [t[k - 1]];
    SpanTotalSnoc(t[..k - 1], t[k - 1]);
    if k == 1 {
      assert Fold(t, 1) == [] + [t[0]];
      SpanTotalSnoc([], t[0]);
    } else {
      FoldTotal(t, k - 1);
      StepTotal(Fold(t, k - 1), t[k - 1]);
    }
  }

  /** One turn of the loop adds the issues of the range it reads and loses none. */
  lemma StepTotal(gs: seq<Span>, x: Span)
    requires gs != []
    ensures SpanTotal(StepSpans(gs, x)) == SpanTotal(gs) + |x.issues|
  {
    var init, last := gs[..|gs| - 1], gs[|gs| - 1];
    assert gs == init + [last];
    SpanTotalSnoc(init, last);
    if Touches(last, x) {
      SpanTotalSnoc(init, Extend(last, x));
    } else {
      SpanTotalSnoc(gs, x);
    }
  }

  lemma SpanTotalSnoc(t: seq<Span>, x: Span)
    ensures SpanTotal(t + [x]) == SpanTotal(t) + |x.issues|
  {
    assert (t + [x])[..|t|] == t;
  }

  // ---------------------------------------------------------------- which range an issue ends up in

  /** The issues of the ranges, one range's list after the other's. */
  function SpanIssues(t: seq<Span>): seq<Issue> {
    if t == [] then [] else SpanIssues(t[..|t| - 1]) + t[|t| - 1].issues
  }

  lemma SpanIssuesSnoc(t: seq<Span>, x: Span)
    ensures SpanIssues(t + [x]) == SpanIssues(t) + x.issues
  {
    assert (t + [x])[..|t|] == t;
  }

  /** An issue is in the joined lists exactly when it is in the list of one of the ranges. */
  lemma {:induction false} SpanIssuesMember(t: seq<Span>, y: Issue)
    ensures y in SpanIssues(t) <==> exists i :: 0 <= i < |t| && y in t[i].issues
  {
    if t != [] {
      var init := t[..|t| - 1];
      SpanIssuesMember(init, y);
      if y in SpanIssues(init) {
        var i :| 0 <= i < |init| && y in init[i].issues;
        assert y in t[i].issues;
      }
      if exists i :: 0 <= i < |t| && y in t[i].issues {
        var i :| 0 <= i < |t| && y in t[i].issues;
        if i < |init| {
          assert y in init[i].issues;
        }
      }
    }
  }

  /**
   * Where each range the merge loop has built after `t[..k]` begins in `t`:
   * the loop starts a range exactly where the next range does not touch
   * the current one.
   */
  function RangeCuts(t: seq<Span>, k: nat): (c: seq<nat>)
    requires 1 <= k <= |t|
    ensures |c| == |Fold(t, k)| && c[0] == 0
    ensures forall i :: 0 <= i < |c| ==> c[i] < k
  {
    if k == 1 then [0]
    else
      var c, gs := RangeCuts(t, k - 1), Fold(t, k - 1);
      if Touches(gs[|gs| - 1], t[k - 1]) then c else c + [k - 1]
  }

  /**
   * The cuts `c`, closed by `k`, split `t[..k]` into consecutive runs, one
   * per range of `gs`: range `m` begins with the first range of its run,
   * holds the issues of the run one list after the other, and every range
   * of the run lies inside it.
   */
  ghost predicate Runs(t: seq<Span>, k: nat, gs: seq<Span>, c: seq<nat>)
    requires k <= |t|
  {
    |c| == |gs| + 1 && c[0] == 0 && c[|gs|] == k && forall m :: 0 <= m < |gs| ==> RunAt(t, k, gs, c, m)
  }

  ghost predicate RunAt(t: seq<Span>, k: nat, gs: seq<Span>, c: seq<nat>, m: nat)
    requires k <= |t| && |c| == |gs| + 1 && m < |gs|
  {
    && c[m] < c[m + 1] <= k
    && gs[m].start == t[c[m]].start
    && gs[m].issues == SpanIssues(t[c[m]..c[m + 1]])
    && forall i :: c[m] <= i < c[m + 1] ==> InsideSpan(t[i], gs[m])
  }

  /**
   * On ranges in start order the merge loop partitions what it has read
   * into consecutive runs: each built range holds exactly the issues of
   * its run, in order, and every range of the run lies inside it.
   */
  lemma {:induction false} FoldRuns(t: seq<Span>, k: nat)
    requires 1 <= k <= |t| && SortedBy(t, SpanStart)
    ensures Runs(t, k, Fold(t, k), RangeCuts(t, k) + [k])
  {
    if k == 1 {
      assert t[0..1] == [] + [t[0]];
      SpanIssuesSnoc([], t[0]);
      assert RunAt(t, 1, Fold(t, 1), [0, 1], 0);
    } else {
      var gs, c := Fold(t, k - 1), RangeCuts(t, k - 1) + [k - 1];
      FoldRuns(t, k - 1);
      FoldLastBefore(t, k - 1);
      if Touches(gs[|gs| - 1], t[k - 1]) {
        StepRunsTouch(t, k, gs, c);
        assert c[..|gs|] + [k] == RangeCuts(t, k) + [k];
      } else {
        StepRunsApart(t, k, gs, c);
      }
    }
  }

  /** A touching range joins the last run. */
  lemma StepRunsTouch(t: seq<Span>, k: nat, gs: seq<Span>, c: seq<nat>)
    requires 2 <= k <= |t| && SortedBy(t, SpanStart) && Runs(t, k - 1, gs, c)
    requires gs != [] && Touches(gs[|gs| - 1], t[k - 1])
    ensures Runs(t, k, StepSpans(gs, t[k - 1]), c[..|gs|] + [k])
  {
    var n, x := |gs| - 1, t[k - 1];
    var r, c' := StepSpans(gs, x), c[..|gs|] + [k];
    forall m | 0 <= m < |r| ensures RunAt(t, k, r, c', m) {
      assert RunAt(t, k - 1, gs, c, m);
      if m < n {
        RunAtKept(t, k, gs, c, r, c', m);
      } else {
        assert c'[m] == c[n] && c[n + 1] == k - 1 && c'[m + 1] == k;
        assert t[c[n]..k] == t[c[n]..k - 1] + [x];
        SpanIssuesSnoc(t[c[n]..k - 1], x);
        assert SpanStart(t[c[n]]) <= SpanStart(x);
      }
    }
  }

  /** A range apart from the current one opens a run of its own. */
  lemma StepRunsApart(t: seq<Span>, k: nat, gs: seq<Span>, c: seq<nat>)
    requires 2 <= k <= |t| && Runs(t, k - 1, gs, c)
    requires gs != [] && !Touches(gs[|gs| - 1], t[k - 1])
    ensures Runs(t, k, StepSpans(gs, t[k - 1]), c + [k])
  {
    var x := t[k - 1];
    var r, c' := StepSpans(gs, x), c + [k];
    assert r == gs + [x];
    forall m | 0 <= m < |r| ensures RunAt(t, k, r, c', m) {
      if m < |gs| {
        assert RunAt(t, k - 1, gs, c, m);
        RunAtKept(t, k, gs, c, r, c', m);
      } else {
        RunAtNew(t, k, r, c', m);
      }
    }
  }

  /** The run of the range just read, alone. */
  lemma RunAtNew(t: seq<Span>, k: nat, r: seq<Span>, c': seq<nat>, m: nat)
    requires 1 <= k <= |t| && |c'| == |r| + 1 && m < |r|
    requires c'[m] == k - 1 && c'[m + 1] == k && r[m] == t[k - 1]
    ensures RunAt(t, k, r, c', m)
  {
    assert t[k - 1..k] == [] + [t[k - 1]];
    SpanIssuesSnoc([], t[k - 1]);
  }

  /** A run the step leaves alone is still a run. */
  lemma RunAtKept(t: seq<Span>, k: nat, gs: seq<Span>, c: seq<nat>, r: seq<Span>, c': seq<nat>, m: nat)
    requires 1 <= k <= |t| && |c| == |gs| + 1 && |c'| == |r| + 1 && m < |gs| && m < |r|
    requires RunAt(t, k - 1, gs, c, m)
    requires c'[m] == c[m] && c'[m + 1] == c[m + 1] && r[m] == gs[m]
    ensures RunAt(t, k, r, c', m)
  {
  }

  /** Cuts that climb from `0` to `k` place every position below `k` in one run. */
  lemma {:induction false} RunOf(c: seq<nat>, n: nat, i: nat, m: nat) returns (p: nat)
    requires |c| == n + 1 && c[n] > i && m < n && c[m] <= i
    requires forall j :: 0 <= j < n ==> c[j] < c[j + 1]
    ensures m <= p < n && c[p] <= i < c[p + 1]
    decreases n - m
  {
    if i < c[m + 1] {
      p := m;
    } else {
      p := RunOf(c, n, i, m + 1);
    }
  }

  /** Both lines of every range are non-negative. */
  ghost predicate NonNegative(t: seq<Span>) {
    forall i :: 0 <= i < |t| ==> 0 <= t[i].start && 0 <= t[i].end
  }

  /** The ranges read from keys are on non-negative lines: a key split at '-' holds no minus sign. */
  lemma {:induction false} ParseAllNonNegative(d: seq<RangeGroup>)
    requires ParseAll(d).Success?
    ensures NonNegative(ParseAll(d).value)
  {
    if d != [] {
      ParseAllNonNegative(d[..|d| - 1]);
    }
  }

  /** Reading the keys keeps every issue. */
  lemma {:induction false} ReadAllTotal(d: seq<RangeGroup>, read: string -> Result<(int, int)>)
    requires ReadAll(d, read).Success?
    ensures SpanTotal(ReadAll(d, read).value) == Total(d)
  {
    if d != [] {
      var init := d[..|d| - 1];
      ReadAllTotal(init, read);
      var range := read(d[|d| - 1].key).value;
      SpanTotalSnoc(ReadAll(init, read).value, Span(range.0, range.1, d[|d| - 1].issues));
    }
  }

  lemma {:induction false} InsertTotal(t: seq<Span>, x: Span)
    ensures SpanTotal(InsertByKey(t, x, SpanStart)) == SpanTotal(t) + |x.issues|
    decreases |t|
  {
    if t == [] || SpanStart(t[|t| - 1]) <= SpanStart(x) {
      SpanTotalSnoc(t, x);
    } else {
      var init, last := t[..|t| - 1], t[|t| - 1];
      InsertTotal(init, x);
      SpanTotalSnoc(InsertByKey(init, x, SpanStart), last);
    }
  }

  /** Sorting keeps every issue. */
  lemma {:induction false} SortTotal(t: seq<Span>)
    ensures SpanTotal(SortBy(t, SpanStart)) == SpanTotal(t)
  {
    if t != [] {
      var init, last := t[..|t| - 1], t[|t| - 1];
      SortTotal(init);
      InsertTotal(SortBy(init, SpanStart), last);
    }
  }

  lemma {:induction false} TotalAsItems(gs: seq<Span>)
    ensures Total(AsItems(gs)) == SpanTotal(gs)
  {
    if gs != [] {
      var init := gs[..|gs| - 1];
      TotalAsItems(init);
      assert AsItems(gs)[..|gs| - 1] == AsItems(init);
    }
  }

  /** Sorting keeps well-formed ranges on non-negative lines so. */
  lemma SortKeepsRanges(t: seq<Span>)
    requires WellFormedSpans(t) && NonNegative(t)
    ensures var sorted := SortBy(t, SpanStart); WellFormedSpans(sorted) && NonNegative(sorted)
  {
    var sorted := SortBy(t, SpanStart);
    forall i | 0 <= i < |sorted| ensures 0 <= sorted[i].start <= sorted[i].end && 0 <= sorted[i].end {
      assert sorted[i] in multiset(t);
    }
  }

  lemma {:induction false} FoldNonNegative(t: seq<Span>, k: nat)
    requires 1 <= k <= |t| && NonNegative(t)
    ensures NonNegative(Fold(t, k))
  {
    if k > 1 {
      FoldNonNegative(t, k - 1);
    }
  }

  /** Separated well-formed ranges on non-negative lines have distinct keys. */
  lemma AsItemsDistinct(gs: seq<Span>)
    requires Separated(gs) && WellFormedSpans(gs) && NonNegative(gs)
    ensures DistinctKeys(AsItems(gs))
  {
    var items := AsItems(gs);
    forall i, j | 0 <= i < j < |gs| ensures items[i].key != items[j].key {
      KeyInjective(gs[i].start, gs[i].end, gs[j].start, gs[j].end);
    }
  }

  /** The ranges the merge loop builds, before they are keyed. */
  ghost function MergedSpans(d: seq<RangeGroup>): seq<Span>
    requires ParseAll(d).Success?
  {
    if d == [] then []
    else
      var sorted := SortBy(ParseAll(d).value, SpanStart);
      Fold(sorted, |sorted|)
  }

  /**
   * When every key reads as a well-formed range, `merge_overlapping_ranges`
   * returns one entry per merged range, keyed `f"{start}-{end}"` with no
   * key written twice (so building the dictionary drops nothing); the
   * merged ranges are well formed and no two of them overlap or touch.
   */
  lemma MergeRangesShape(d: seq<RangeGroup>)
    requires d != [] && ParseAll(d).Success? && WellFormedSpans(ParseAll(d).value)
    ensures MergeRanges(d).Success?
    ensures var r, g := MergeRanges(d).value, MergedSpans(d);
      && r == AsItems(g) && 1 <= |r| <= |d|
      && WellFormedSpans(g) && Separated(g) && NonNegative(g)
  {
    var spans := ParseAll(d).value;
    var sorted := SortBy(spans, SpanStart);
    var n := |sorted|;
    var g := Fold(sorted, n);
    ParseAllNonNegative(d);
    SortKeepsRanges(spans);
    SortBySorted(spans, SpanStart);
    FoldSeparated(sorted, n);
    FoldWellFormed(sorted, n);
    FoldNonNegative(sorted, n);
    AsItemsDistinct(g);
    FromDistinctItems(AsItems(g));
  }

  /** Merging loses no issue and invents none. */
  lemma MergeRangesTotal(d: seq<RangeGroup>)
    requires d != [] && ParseAll(d).Success? && WellFormedSpans(ParseAll(d).value)
    ensures MergeRanges(d).Success? && Total(MergeRanges(d).value) == Total(d)
  {
    var spans := ParseAll(d).value;
    var sorted := SortBy(spans, SpanStart);
    var n := |sorted|;
    MergeRangesShape(d);
    FoldTotal(sorted, n);
    assert sorted[..n] == sorted;
    SortTotal(spans);
    ReadAllTotal(d, ParseKey);
    TotalAsItems(MergedSpans(d));
  }

  /** Every input range lies inside one of the merged ranges. */
  lemma MergeRangesCovers(d: seq<RangeGroup>)
    requires d != [] && ParseAll(d).Success? && WellFormedSpans(ParseAll(d).value)
    ensures var spans, g := ParseAll(d).value, MergedSpans(d);
      forall i :: 0 <= i < |spans| ==> CoveredSpan(spans[i], g)
  {
    var spans := ParseAll(d).value;
    var sorted := SortBy(spans, SpanStart);
    var n := |sorted|;
    SortBySorted(spans, SpanStart);
    forall i | 0 <= i < |spans| ensures CoveredSpan(spans[i], MergedSpans(d)) {
      assert spans[i] in multiset(sorted);
      var m :| 0 <= m < n && sorted[m] == spans[i];
      FoldCovers(sorted, n, m);
    }
  }

  /** No input range lies inside two merged ranges. */
  lemma MergeRangesCoversOnce(d: seq<RangeGroup>)
    requires d != [] && ParseAll(d).Success? && WellFormedSpans(ParseAll(d).value)
    ensures var spans, g := ParseAll(d).value, MergedSpans(d);
      forall x, i, j :: x in spans && 0 <= i < j < |g| ==> !(InsideSpan(x, g[i]) && InsideSpan(x, g[j]))
  {
    var spans := ParseAll(d).value;
    var g := MergedSpans(d);
    MergeRangesShape(d);
    forall x, i, j | x in spans && 0 <= i < j < |g| ensures !(InsideSpan(x, g[i]) && InsideSpan(x, g[j])) {
      var p :| 0 <= p < |spans| && spans[p] == x;
    }
  }

  /**
   * `current_issues.extend(issues)`: the ranges read from the keys, in
   * start order, fall into consecutive runs, one per merged range; each
   * merged range holds the issues of its run one list after the other, and
   * its run is exactly the input ranges that lie inside it.
   */
  lemma MergeRangesRuns(d: seq<RangeGroup>)
    requires d != [] && ParseAll(d).Success? && WellFormedSpans(ParseAll(d).value)
    ensures var sorted := SortBy(ParseAll(d).value, SpanStart);
      var g, c := MergedSpans(d), RangeCuts(sorted, |sorted|) + [|sorted|];
      && SortedBy(sorted, SpanStart)
      && Runs(sorted, |sorted|, g, c)
      && forall m, i :: 0 <= m < |g| && 0 <= i < |sorted| ==> (InsideSpan(sorted[i], g[m]) <==> c[m] <= i < c[m + 1])
  {
    var spans := ParseAll(d).value;
    ParseAllNonNegative(d);
    SortKeepsRanges(spans);
    SortBySorted(spans, SpanStart);
    FoldRunsExact(SortBy(spans, SpanStart));
  }

  /** On well-formed ranges in start order, the runs of the whole merge loop, each exactly the ranges inside its merged range. */
  lemma FoldRunsExact(t: seq<Span>)
    requires t != [] && SortedBy(t, SpanStart) && WellFormedSpans(t)
    ensures var g, c := Fold(t, |t|), RangeCuts(t, |t|) + [|t|];
      && Runs(t, |t|, g, c)
      && forall m, i :: 0 <= m < |g| && 0 <= i < |t| ==> (InsideSpan(t[i], g[m]) <==> c[m] <= i < c[m + 1])
  {
    FoldRuns(t, |t|);
    FoldSeparated(t, |t|);
    RunsExact(t, Fold(t, |t|), RangeCuts(t, |t|) + [|t|]);
  }

  /** Runs of well-formed ranges into ranges that are apart: a range lies inside the range of its run and no other. */
  lemma RunsExact(t: seq<Span>, gs: seq<Span>, c: seq<nat>)
    requires Runs(t, |t|, gs, c) && Separated(gs) && WellFormedSpans(t)
    ensures forall m, i :: 0 <= m < |gs| && 0 <= i < |t| ==> (InsideSpan(t[i], gs[m]) <==> c[m] <= i < c[m + 1])
  {
    var n := |t|;
    assert forall j :: 0 <= j < |gs| ==> c[j] < c[j + 1] by {
      forall j | 0 <= j < |gs| ensures c[j] < c[j + 1] {
        RunAtOf(t, n, gs, c, j);
      }
    }
    forall m, i | 0 <= m < |gs| && 0 <= i < n ensures InsideSpan(t[i], gs[m]) <==> c[m] <= i < c[m + 1] {
      RunAtOf(t, n, gs, c, m);
      if InsideSpan(t[i], gs[m]) {
        var p := RunOf(c, |gs|, i, 0);
        RunAtOf(t, n, gs, c, p);
        assert InsideSpan(t[i], gs[p]);
        assert t[i].start <= t[i].end;
      }
    }
  }

  lemma RunAtOf(t: seq<Span>, k: nat, gs: seq<Span>, c: seq<nat>, m: nat)
    requires k <= |t| && Runs(t, k, gs, c) && m < |gs|
    ensures RunAt(t, k, gs, c, m)
  {
  }

  // ---------------------------------------------------------------- ordering

  /** The sort key of `sort_ranges_by_size`, `int(range_key.split('-')[1])`, for a key that unpacks. */
  function KeyEnd(g: RangeGroup): int {
    match ParseKey(g.key)
    case Success(range) => range.1
    case Failure(_) => 0
  }

  /**
   * What `sort_ranges_by_size` returns: every key must unpack into two
   * integers, and the entries come out by end line, bottom of the page
   * first; despite the name, the size of a range plays no part.
   */
  function SortedRanges(d: seq<RangeGroup>): Result<seq<RangeGroup>> {
    if d == [] then Success([])
    else
      var _ :- ParseAll(d);
      Success(SortByDesc(d, KeyEnd))
  }

  /** `sort_ranges_by_size`: the loop that unpacks every key, then the sort. */
  method SortRangesBySize(d: seq<RangeGroup>) returns (r: Result<seq<RangeGroup>>)
    ensures r == SortedRanges(d)
  {
    if d == [] {
      return Success([]);
    }
    var _ :- ReadRanges(d);
    r := Success(SortByDesc(d, KeyEnd));
  }

  /** Every key of a dictionary whose keys were all read. */
  lemma {:induction false} ReadAllEach(d: seq<RangeGroup>, read: string -> Result<(int, int)>)
    requires ReadAll(d, read).Success?
    ensures forall i :: 0 <= i < |d| ==> read(d[i].key).Success?
  {
    if d != [] {
      var init := d[..|d| - 1];
      ReadAllEach(init, read);
      assert forall i :: 0 <= i < |init| ==> init[i] == d[i];
    }
  }

  /**
   * The sorted entries are the input entries, each key unpacking into two
   * integers, ordered by end line from the bottom of the page up.
   */
  lemma SortedRangesOrder(d: seq<RangeGroup>)
    requires SortedRanges(d).Success?
    ensures var r := SortedRanges(d).value;
      && multiset(r) == multiset(d)
      && (forall i :: 0 <= i < |r| ==> ParseKey(r[i].key).Success? && KeyEnd(r[i]) == ParseKey(r[i].key).value.1)
      && (forall i, j :: 0 <= i < j < |r| ==> KeyEnd(r[i]) >= KeyEnd(r[j]))
  {
    if d != [] {
      ReadAllEach(d, ParseKey);
      SortByDescSorted(d, KeyEnd);
      SortedKeysParse(d);
    }
  }

  /** Sorting only reorders entries, so keys that all unpack still do. */
  lemma SortedKeysParse(d: seq<RangeGroup>)
    requires forall i :: 0 <= i < |d| ==> ParseKey(d[i].key).Success?
    ensures var r := SortByDesc(d, KeyEnd);
      forall i :: 0 <= i < |r| ==> ParseKey(r[i].key).Success? && KeyEnd(r[i]) == ParseKey(r[i].key).value.1
  {
    var r := SortByDesc(d, KeyEnd);
    forall i | 0 <= i < |r| ensures ParseKey(r[i].key).Success? {
      assert r[i] in multiset(d);
    }
  }

  /**
   * Merged ranges, which come out in line order with no two touching, are
   * sorted into exactly the reverse order.
   */
  lemma SortMergedReverses(gs: seq<Span>)
    requires Separated(gs) && WellFormedSpans(gs) && NonNegative(gs)
    ensures SortedRanges(AsItems(gs)) == Success(Reverse(AsItems(gs)))
  {
    var items := AsItems(gs);
    forall i | 0 <= i < |gs| ensures ParseKey(items[i].key) == Success((gs[i].start, gs[i].end)) {
      KeyRoundTrip(gs[i].start, gs[i].end);
    }
    ReadAllSpans(items, ParseKey);
    SortDescStrictlyIncreasing(items, KeyEnd);
  }

  // ---------------------------------------------------------------- page sections

  /**
   * `'\n'.join(html_lines[max(0, start - 1):min(len(html_lines), end)])`:
   * the 1-based lines `start..end` of the page, cut off at its last line. A
   * negative end counts from the end of the list, as Python slicing does.
   */
  function Section(lines: seq<string>, start: int, end: int): string {
    var a := Max(0, start - 1);
    var b := Min(|lines|, end);
    var b' := if b < 0 then Max(0, |lines| + b) else b;
    if a < b' then Join(lines[a..b'], "\n") else ""
  }

  /**
   * A range inside the page gets exactly its lines: the section splits back
   * into lines `start..end` of the page, `end - start + 1` of them.
   */
  lemma SectionLines(html: string, start: int, end: int)
    requires 1 <= start <= end <= |Split(html, '\n')|
    ensures Split(Section(Split(html, '\n'), start, end), '\n') == Split(html, '\n')[start - 1..end]
    ensures |Split(Section(Split(html, '\n'), start, end), '\n')| == end - start + 1
  {
    var lines := Split(html, '\n');
    SplitJoin(lines[start - 1..end], '\n');
  }

  /** Each issue of a group given the section and the key of its range. */
  function Annotate(issues: seq<Issue>, section: string, key: string): (r: seq<Issue>)
    ensures |r| == |issues|
  {
    seq(|issues|, k requires 0 <= k < |issues| => issues[k].(rawHtml := Some(section), lineRange := Some(key)))
  }

  /** The page text is falsy: absent or empty. */
  predicate NoPage(html: Option<string>) {
    html.None? || html.value == ""
  }

  /** An entry with each of its issues given the section of `range` and the entry's key. */
  function WithSection(g: RangeGroup, range: Span, lines: seq<string>): RangeGroup {
    RangeGroup(g.key, Annotate(g.issues, Section(lines, range.start, range.end), g.key))
  }

  /**
   * What `add_raw_html_context` leaves in the dictionary: nothing changes
   * without a page; otherwise every key must unpack, and every issue of an
   * entry carries that entry's page section and key.
   */
  function WithContext(d: seq<RangeGroup>, html: Option<string>): Result<seq<RangeGroup>> {
    if NoPage(html) then Success(d)
    else
      var spans :- ParseAll(d);
      var lines := Split(html.value, '\n');
      Success(seq(|d|, i requires 0 <= i < |d| => WithSection(d[i], spans[i], lines)))
  }

  /** `add_raw_html_context`: the page split into lines, then one pass over the entries. */
  method AddRawHtmlContext(d: seq<RangeGroup>, html: Option<string>) returns (r: Result<seq<RangeGroup>>)
    ensures r == WithContext(d, html)
  {
    if NoPage(html) {
      return Success(d);
    }
    var lines := Split(html.value, '\n');
    var spans :- ReadRanges(d);
    var out := WriteSections(d, spans, lines);
    return Success(out);
  }

  /** The loop of `add_raw_html_context` over the entries and their ranges. */
  method WriteSections(d: seq<RangeGroup>, spans: seq<Span>, lines: seq<string>) returns (out: seq<RangeGroup>)
    requires |spans| == |d|
    ensures out == seq(|d|, i requires 0 <= i < |d| => WithSection(d[i], spans[i], lines))
  {
    out := [];
    for i := 0 to |d|
      invariant |out| == i
      invariant forall j :: 0 <= j < i ==> out[j] == WithSection(d[j], spans[j], lines)
    {
      var written := WriteSection(d[i].issues, Section(lines, spans[i].start, spans[i].end), d[i].key);
      out := out + [RangeGroup(d[i].key, written)];
    }
  }

  /** The inner loop of `add_raw_html_context`: `raw_html` and `line_range` written into each issue. */
  method WriteSection(issues: seq<Issue>, section: string, key: string) returns (written: seq<Issue>)
    ensures written == Annotate(issues, section, key)
  {
    written := [];
    for k := 0 to |issues|
      invariant |written| == k
      invariant forall m :: 0 <= m < k ==> written[m] == issues[m].(rawHtml := Some(section), lineRange := Some(key))
    {
      written := written + [issues[k].(rawHtml := Some(section), lineRange := Some(key))];
    }
  }

  /**
   * Adding the context keeps the keys and every issue in place; the only
   * change to an issue is its raw HTML and line range, which are then the
   * section of the range its entry's key names (see `ReadAllSpans`) and
   * that key.
   */
  lemma ContextKeeps(d: seq<RangeGroup>, html: Option<string>)
    requires WithContext(d, html).Success?
    ensures var r := WithContext(d, html).value;
      && |r| == |d| && Keys(r) == Keys(d) && Total(r) == Total(d)
      && (forall i :: 0 <= i < |d| ==> |r[i].issues| == |d[i].issues|)
      && (forall i, k :: 0 <= i < |d| && 0 <= k < |d[i].issues| ==>
            r[i].issues[k].(rawHtml := d[i].issues[k].rawHtml, lineRange := d[i].issues[k].lineRange) == d[i].issues[k])
      && (!NoPage(html) ==> ParseAll(d).Success? && forall i, k :: 0 <= i < |d| && 0 <= k < |d[i].issues| ==>
            && r[i].issues[k].lineRange == Some(d[i].key)
            && r[i].issues[k].rawHtml == Some(Section(Split(html.value, '\n'), ParseAll(d).value[i].start, ParseAll(d).value[i].end)))
  {
    if !NoPage(html) {
      TotalSame(d, WithContext(d, html).value);
    }
  }

  /** Two dictionaries whose entries hold as many issues each hold as many in all. */
  lemma {:induction false} TotalSame(d: seq<RangeGroup>, e: seq<RangeGroup>)
    requires |d| == |e| && forall i :: 0 <= i < |d| ==> |d[i].issues| == |e[i].issues|
    ensures Total(d) == Total(e)
  {
    if d != [] {
      TotalSame(d[..|d| - 1], e[..|e| - 1]);
    }
  }

  // ---------------------------------------------------------------- the grouping pipeline

  /** Every located issue sits on non-negative lines and starts no later than it ends. */
  ghost predicate LinesInOrder(issues: seq<Issue>) {
    forall k :: 0 <= k < |issues| && Located(issues[k]) ==>
      0 <= issues[k].matchLineStart.value <= issues[k].matchLineEnd.value
  }

  /** The lines of a located issue, as a range. */
  function IssueSpan(it: Issue): Span
    requires Located(it)
  {
    Span(it.matchLineStart.value, it.matchLineEnd.value, [])
  }

  /** The range of a group, read off its first issue. */
  function FirstSpan(g: RangeGroup): Span {
    if g.issues != [] && Located(g.issues[0]) then
      Span(g.issues[0].matchLineStart.value, g.issues[0].matchLineEnd.value, g.issues)
    else Span(0, 0, g.issues)
  }

  /** A group of located issues in line order sharing one key: the key unpacks into the lines of each of them. */
  lemma GroupKey(issues: seq<Issue>, g: RangeGroup)
    requires LinesInOrder(issues) && g.issues != []
    requires forall x :: x in g.issues ==> x in issues && Located(x) && KeyOf(x) == g.key
    ensures ParseKey(g.key) == Success((FirstSpan(g).start, FirstSpan(g).end))
    ensures FirstSpan(g).start <= FirstSpan(g).end
    ensures forall x :: x in g.issues ==>
      x.matchLineStart.value == FirstSpan(g).start && x.matchLineEnd.value == FirstSpan(g).end
  {
    var x0 := g.issues[0];
    assert x0 in g.issues;
    var k0 :| 0 <= k0 < |issues| && issues[k0] == x0;
    KeyRoundTrip(x0.matchLineStart.value, x0.matchLineEnd.value);
    forall x | x in g.issues
      ensures x.matchLineStart.value == FirstSpan(g).start && x.matchLineEnd.value == FirstSpan(g).end
    {
      var k :| 0 <= k < |issues| && issues[k] == x;
      KeyInjective(x0.matchLineStart.value, x0.matchLineEnd.value, x.matchLineStart.value, x.matchLineEnd.value);
    }
  }

  /** When `read` turns every key into the given ranges, reading the dictionary yields exactly them. */
  lemma {:induction false} ReadAllExact(d: seq<RangeGroup>, read: string -> Result<(int, int)>, spans: seq<Span>)
    requires |spans| == |d|
    requires forall i :: 0 <= i < |d| ==>
      read(d[i].key) == Success((spans[i].start, spans[i].end)) && spans[i].issues == d[i].issues
    ensures ReadAll(d, read) == Success(spans)
  {
    if d != [] {
      var n := |d| - 1;
      ReadAllExact(d[..n], read, spans[..n]);
      assert spans == spans[..n] + [spans[n]];
    }
  }

  /**
   * The keys `extract_line_ranges` writes for issues in line order unpack
   * again, each into the lines of every issue of its group.
   */
  lemma GroupedSpans(issues: seq<Issue>)
    requires LinesInOrder(issues)
    ensures ParseAll(Grouped(issues)).Success?
    ensures var d, spans := Grouped(issues), ParseAll(Grouped(issues)).value;
      && WellFormedSpans(spans)
      && (forall i :: 0 <= i < |d| ==> spans[i].issues == d[i].issues)
      && (forall i, x :: 0 <= i < |d| && x in d[i].issues ==>
            Located(x) && spans[i].start == x.matchLineStart.value && spans[i].end == x.matchLineEnd.value)
  {
    var d := Grouped(issues);
    GroupedShape(issues);
    var spans := seq(|d|, i requires 0 <= i < |d| => FirstSpan(d[i]));
    forall i | 0 <= i < |d|
      ensures ParseKey(d[i].key) == Success((spans[i].start, spans[i].end))
      ensures spans[i].start <= spans[i].end
      ensures forall x :: x in d[i].issues ==>
        Located(x) && spans[i].start == x.matchLineStart.value && spans[i].end == x.matchLineEnd.value
    {
      GroupKey(issues, d[i]);
    }
    ReadAllExact(d, ParseKey, spans);
  }

  /** `merge_overlapping_ranges` and then `sort_ranges_by_size`, on the groups of the issues. */
  function RankedRanges(issues: seq<Issue>): Result<seq<RangeGroup>> {
    var merged :- MergeRanges(Grouped(issues));
    SortedRanges(merged)
  }

  /**
   * For issues in line order, grouping, merging and sorting never fail, and
   * yield the merged ranges keyed `"start-end"`, from the bottom of the page
   * up; the merged ranges are well formed and no two overlap or touch.
   */
  lemma RankedShape(issues: seq<Issue>)
    requires LinesInOrder(issues)
    ensures ParseAll(Grouped(issues)).Success?
    ensures var g := MergedSpans(Grouped(issues));
      && RankedRanges(issues) == Success(Reverse(AsItems(g)))
      && Separated(g) && WellFormedSpans(g) && NonNegative(g)
  {
    GroupedSpans(issues);
    var d := Grouped(issues);
    if d != [] {
      MergeRangesShape(d);
      SortMergedReverses(MergedSpans(d));
    }
  }

  /** Every located issue lies inside one of the merged ranges. */
  lemma RankedCovers(issues: seq<Issue>)
    requires LinesInOrder(issues)
    ensures ParseAll(Grouped(issues)).Success?
    ensures forall k :: 0 <= k < |issues| && Located(issues[k]) ==>
      CoveredSpan(IssueSpan(issues[k]), MergedSpans(Grouped(issues)))
  {
    GroupedSpans(issues);
    var d := Grouped(issues);
    var spans := ParseAll(d).value;
    var g := MergedSpans(d);
    GroupedShape(issues);
    forall k | 0 <= k < |issues| && Located(issues[k])
      ensures CoveredSpan(IssueSpan(issues[k]), g)
    {
      var x := issues[k];
      var p := Lookup(d, KeyOf(x)).value;
      assert x in d[p].issues;
      MergeRangesCovers(d);
      var m :| 0 <= m < |g| && InsideSpan(spans[p], g[m]);
      assert InsideSpan(IssueSpan(x), g[m]);
    }
  }

  /** No located issue lies inside two merged ranges. */
  lemma RankedCoversOnce(issues: seq<Issue>)
    requires LinesInOrder(issues)
    ensures ParseAll(Grouped(issues)).Success?
    ensures var g := MergedSpans(Grouped(issues));
      forall k, i, j :: 0 <= k < |issues| && Located(issues[k]) && 0 <= i < j < |g| ==>
        !(InsideSpan(IssueSpan(issues[k]), g[i]) && InsideSpan(IssueSpan(issues[k]), g[j]))
  {
    RankedShape(issues);
  }

  /** Grouping, merging and sorting keep every located issue and no other. */
  lemma RankedTotal(issues: seq<Issue>)
    requires LinesInOrder(issues)
    ensures RankedRanges(issues).Success?
    ensures Total(RankedRanges(issues).value) == |LocatedKeys(issues)|
  {
    GroupedSpans(issues);
    RankedShape(issues);
    GroupedTotal(issues);
    var d := Grouped(issues);
    var items := AsItems(MergedSpans(d));
    if d != [] {
      MergeRangesShape(d);
      MergeRangesTotal(d);
      assert Total(items) == Total(d);
    }
    TotalReverse(items);
  }

  /**
   * Each merged range holds only located issues, each of whose own lines
   * lie inside that range.
   */
  lemma RankedMembers(issues: seq<Issue>)
    requires LinesInOrder(issues)
    ensures ParseAll(Grouped(issues)).Success?
    ensures var g := MergedSpans(Grouped(issues));
      forall m, j :: 0 <= m < |g| && 0 <= j < |g[m].issues| ==>
        g[m].issues[j] in issues && Located(g[m].issues[j]) && InsideSpan(IssueSpan(g[m].issues[j]), g[m])
  {
    GroupedParses(issues);
    var g := MergedSpans(Grouped(issues));
    forall m, j | 0 <= m < |g| && 0 <= j < |g[m].issues|
      ensures g[m].issues[j] in issues && Located(g[m].issues[j]) && InsideSpan(IssueSpan(g[m].issues[j]), g[m])
    {
      var k := MemberFromRun(issues, m, g[m].issues[j]);
    }
  }

  /** An issue of a merged range comes from a group whose range lies inside it. */
  lemma MemberFromRun(issues: seq<Issue>, m: nat, x: Issue) returns (k: nat)
    requires LinesInOrder(issues) && ParseAll(Grouped(issues)).Success?
    requires m < |MergedSpans(Grouped(issues))| && x in MergedSpans(Grouped(issues))[m].issues
    ensures k < |issues| && issues[k] == x && Located(x) && InsideSpan(IssueSpan(x), MergedSpans(Grouped(issues))[m])
  {
    var d := Grouped(issues);
    var spans := ParseAll(d).value;
    var sorted := SortBy(spans, SpanStart);
    GroupedParses(issues);
    MergeRangesRuns(d);
    var i := RunMember(sorted, MergedSpans(d), RangeCuts(sorted, |sorted|) + [|sorted|], m, x);
    var p := SortedOrigin(spans, i);
    k := SpanOfMember(issues, p, x);
  }

  /** An issue of the range read from a group's key is a located issue of the input, on exactly those lines. */
  lemma SpanOfMember(issues: seq<Issue>, p: nat, x: Issue) returns (k: nat)
    requires LinesInOrder(issues) && ParseAll(Grouped(issues)).Success?
    requires p < |ParseAll(Grouped(issues)).value| && x in ParseAll(Grouped(issues)).value[p].issues
    ensures k < |issues| && issues[k] == x && Located(x)
    ensures var y := ParseAll(Grouped(issues)).value[p]; y.start == x.matchLineStart.value && y.end == x.matchLineEnd.value
  {
    var d := Grouped(issues);
    GroupedSpans(issues);
    assert x in d[p].issues;
    GroupedAt(issues, p);
    WithRangeKeyMembers(issues, d[p].key);
    k :| 0 <= k < |issues| && issues[k] == x;
  }

  lemma GroupedParses(issues: seq<Issue>)
    requires LinesInOrder(issues)
    ensures ParseAll(Grouped(issues)).Success? && WellFormedSpans(ParseAll(Grouped(issues)).value)
  {
    GroupedSpans(issues);
  }

  /** An issue of a range built from runs comes from a range of its run, which lies inside it. */
  lemma RunMember(t: seq<Span>, gs: seq<Span>, c: seq<nat>, m: nat, x: Issue) returns (i: nat)
    requires Runs(t, |t|, gs, c) && m < |gs| && x in gs[m].issues
    ensures i < |t| && x in t[i].issues && InsideSpan(t[i], gs[m])
  {
    RunAtOf(t, |t|, gs, c, m);
    var run := t[c[m]..c[m + 1]];
    SpanIssuesMember(run, x);
    var j :| 0 <= j < |run| && x in run[j].issues;
    i := c[m] + j;
    assert run[j] == t[i];
  }

  /** Where an element of the sorted ranges sits among the ranges before sorting. */
  lemma SortedOrigin(spans: seq<Span>, i: nat) returns (p: nat)
    requires i < |SortBy(spans, SpanStart)|
    ensures p < |spans| && spans[p] == SortBy(spans, SpanStart)[i]
  {
    var sorted := SortBy(spans, SpanStart);
    assert sorted[i] in multiset(spans);
    p :| 0 <= p < |spans| && spans[p] == sorted[i];
  }

  /**
   * Every located issue is in some merged range, the one that holds its
   * lines: it is in range `m` exactly when its lines lie inside range `m`.
   */
  lemma RankedPlacement(issues: seq<Issue>)
    requires LinesInOrder(issues)
    ensures ParseAll(Grouped(issues)).Success?
    ensures var g := MergedSpans(Grouped(issues));
      forall k, m :: 0 <= k < |issues| && Located(issues[k]) && 0 <= m < |g| ==>
        (issues[k] in g[m].issues <==> InsideSpan(IssueSpan(issues[k]), g[m]))
  {
    GroupedSpans(issues);
    RankedMembers(issues);
    RankedCoversOnce(issues);
    var g := MergedSpans(Grouped(issues));
    forall k, m | 0 <= k < |issues| && Located(issues[k]) && 0 <= m < |g| && InsideSpan(IssueSpan(issues[k]), g[m])
      ensures issues[k] in g[m].issues
    {
      var q := RunHolding(issues, k);
      assert InsideSpan(IssueSpan(issues[k]), g[q]);
      assert q == m;
    }
  }

  /** The merged range a located issue ends up in: the one whose run holds its group's range. */
  lemma RunHolding(issues: seq<Issue>, k: nat) returns (q: nat)
    requires LinesInOrder(issues) && k < |issues| && Located(issues[k])
    requires ParseAll(Grouped(issues)).Success?
    ensures q < |MergedSpans(Grouped(issues))| && issues[k] in MergedSpans(Grouped(issues))[q].issues
  {
    var d := Grouped(issues);
    var p := GroupOfIssue(issues, k);
    var spans := ParseAll(d).value;
    var sorted := SortBy(spans, SpanStart);
    GroupedParses(issues);
    MergeRangesRuns(d);
    var i := SortedPlace(spans, p);
    q := RunHolder(sorted, MergedSpans(d), RangeCuts(sorted, |sorted|) + [|sorted|], i, issues[k]);
  }

  /** A located issue is in the range read from its group's key. */
  lemma GroupOfIssue(issues: seq<Issue>, k: nat) returns (p: nat)
    requires LinesInOrder(issues) && k < |issues| && Located(issues[k])
    ensures ParseAll(Grouped(issues)).Success?
    ensures p < |ParseAll(Grouped(issues)).value| && issues[k] in ParseAll(Grouped(issues)).value[p].issues
  {
    var d := Grouped(issues);
    GroupedShape(issues);
    p := Lookup(d, KeyOf(issues[k])).value;
    assert issues[k] in d[p].issues;
    GroupedSpans(issues);
  }

  /** Where a range sits among the ranges once sorted. */
  lemma SortedPlace(spans: seq<Span>, p: nat) returns (i: nat)
    requires p < |spans|
    ensures i < |SortBy(spans, SpanStart)| && SortBy(spans, SpanStart)[i] == spans[p]
  {
    var sorted := SortBy(spans, SpanStart);
    assert spans[p] in multiset(sorted);
    i :| 0 <= i < |sorted| && sorted[i] == spans[p];
  }

  /** An issue of a range read lands in the merged range built from that range's run. */
  lemma RunHolder(t: seq<Span>, gs: seq<Span>, c: seq<nat>, i: nat, x: Issue) returns (q: nat)
    requires Runs(t, |t|, gs, c) && i < |t| && x in t[i].issues
    ensures q < |gs| && x in gs[q].issues
  {
    assert forall j :: 0 <= j < |gs| ==> c[j] < c[j + 1] by {
      forall j | 0 <= j < |gs| ensures c[j] < c[j + 1] {
        RunAtOf(t, |t|, gs, c, j);
      }
    }
    q := RunOf(c, |gs|, i, 0);
    RunAtOf(t, |t|, gs, c, q);
    var run := t[c[q]..c[q + 1]];
    assert run[i - c[q]] == t[i];
    SpanIssuesMember(run, x);
  }

  lemma {:induction false} TotalReverse(d: seq<RangeGroup>)
    ensures Total(Reverse(d)) == Total(d)
  {
    if d != [] {
      var init := d[..|d| - 1];
      TotalReverse(init);
      TotalFront(Reverse(init), d[|d| - 1]);
      assert Reverse(d) == [d[|d| - 1]] + Reverse(init);
    }
  }

  lemma {:induction false} TotalFront(d: seq<RangeGroup>, x: RangeGroup)
    ensures Total([x] + d) == |x.issues| + Total(d)
  {
    if d != [] {
      var init := d[..|d| - 1];
      TotalFront(init, x);
      assert ([x] + d)[..|d|] == [x] + init;
    }
  }

  /** The keys of the merged ranges, bottom of the page first, unpack into those ranges. */
  lemma BottomUpKeys(gs: seq<Span>)
    requires NonNegative(gs)
    ensures ParseAll(Reverse(AsItems(gs))) == Success(Reverse(gs))
  {
    var d, spans := Reverse(AsItems(gs)), Reverse(gs);
    forall i | 0 <= i < |d|
      ensures ParseKey(d[i].key) == Success((spans[i].start, spans[i].end)) && spans[i].issues == d[i].issues
    {
      KeyRoundTrip(spans[i].start, spans[i].end);
    }
    ReadAllExact(d, ParseKey, spans);
  }

  /** Reversing keeps the keys distinct. */
  lemma ReverseDistinct(d: seq<RangeGroup>)
    requires DistinctKeys(d)
    ensures DistinctKeys(Reverse(d))
  {
    var r := Reverse(d);
    forall i, j | 0 <= i < j < |r| ensures r[i].key != r[j].key {
      assert r[i] == d[|d| - 1 - i] && r[j] == d[|d| - 1 - j];
    }
  }

  // ---------------------------------------------------------------- process_matched_results

  /** `x.get("match_line_end", 0)`; every issue a group holds has an end line. */
  function EndOrZero(it: Issue): int {
    it.matchLineEnd.GetOr(0)
  }

  /** The `"summary"` of `process_matched_results`; `range_sizes` in the order of the ranges. */
  datatype Summary = Summary(totalRanges: nat, totalIssues: nat, rangeSizes: seq<(string, nat)>)

  /** `{"summary": ..., "line_ranges": ...}`. */
  datatype Processed = Processed(summary: Summary, lineRanges: seq<RangeGroup>)

  /** Each group's issues sorted by end line, last line first (`reverse=True`, so ties keep their order). */
  function IssuesByEnd(d: seq<RangeGroup>): (r: seq<RangeGroup>)
    ensures |r| == |d|
  {
    seq(|d|, i requires 0 <= i < |d| => RangeGroup(d[i].key, SortByDesc(d[i].issues, EndOrZero)))
  }

  function Summarize(d: seq<RangeGroup>): Processed {
    Processed(Summary(|d|, Total(d), seq(|d|, i requires 0 <= i < |d| => (d[i].key, |d[i].issues|))), d)
  }

  /** What `process_matched_results` returns, or the exception it raises. */
  function ProcessResults(result: IssueSet, html: Option<string>): Result<Processed> {
    var sorted :- RankedRanges(result.issues);
    var final :- WithContext(FromItems(sorted), html);
    Success(Summarize(IssuesByEnd(final)))
  }

  /** `process_matched_results`. */
  method ProcessMatchedResults(result: IssueSet, html: Option<string>) returns (r: Result<Processed>)
    ensures r == ProcessResults(result, html)
  {
    var d := ExtractLineRanges(result.issues);
    var merged :- MergeOverlappingRanges(d);
    var sorted :- SortRangesBySize(merged);
    var final :- AddRawHtmlContext(FromItems(sorted), html);
    var ordered := SortEachGroup(final);
    return Success(Summarize(ordered));
  }

  /** The loop of `process_matched_results` that sorts each group's issues in place. */
  method SortEachGroup(d: seq<RangeGroup>) returns (r: seq<RangeGroup>)
    ensures r == IssuesByEnd(d)
  {
    r := [];
    for i := 0 to |d|
      invariant |r| == i
      invariant forall j :: 0 <= j < i ==> r[j] == RangeGroup(d[j].key, SortByDesc(d[j].issues, EndOrZero))
    {
      r := r + [RangeGroup(d[i].key, SortByDesc(d[i].issues, EndOrZero))];
    }
  }

  /**
   * For issues in line order `process_matched_results` reduces to the
   * merged ranges, bottom of the page first, with their context added.
   */
  lemma ProcessUnfolds(result: IssueSet, html: Option<string>)
    requires LinesInOrder(result.issues)
    ensures ParseAll(Grouped(result.issues)).Success?
    ensures var g := MergedSpans(Grouped(result.issues));
      && Separated(g) && WellFormedSpans(g) && NonNegative(g)
      && WithContext(Reverse(AsItems(g)), html).Success?
      && ProcessResults(result, html) == Success(Summarize(IssuesByEnd(WithContext(Reverse(AsItems(g)), html).value)))
  {
    var issues := result.issues;
    RankedShape(issues);
    var g := MergedSpans(Grouped(issues));
    var sorted := Reverse(AsItems(g));
    AsItemsDistinct(g);
    ReverseDistinct(AsItems(g));
    FromDistinctItems(sorted);
    BottomUpKeys(g);
  }

  /**
   * For issues in line order `process_matched_results` succeeds: one range
   * per merged range, keyed `"start-end"`, from the bottom of the page up,
   * and the summary counts the ranges and every located issue.
   */
  lemma ProcessShape(result: IssueSet, html: Option<string>)
    requires LinesInOrder(result.issues)
    ensures ParseAll(Grouped(result.issues)).Success?
    ensures ProcessResults(result, html).Success?
    ensures var g, p := MergedSpans(Grouped(result.issues)), ProcessResults(result, html).value;
      && |p.lineRanges| == |g| == p.summary.totalRanges
      && p.summary.totalIssues == |LocatedKeys(result.issues)|
      && (forall i :: 0 <= i < |g| ==> p.lineRanges[i].key == RangeKey(g[|g| - 1 - i].start, g[|g| - 1 - i].end))
  {
    ProcessUnfolds(result, html);
    ProcessTotals(result, html);
    RankedShape(result.issues);
    var g := MergedSpans(Grouped(result.issues));
    ContextKeeps(Reverse(AsItems(g)), html);
  }

  /** The summary of `process_matched_results` counts the ranges and every located issue. */
  lemma ProcessTotals(result: IssueSet, html: Option<string>)
    requires LinesInOrder(result.issues)
    ensures ParseAll(Grouped(result.issues)).Success?
    ensures ProcessResults(result, html).Success?
    ensures var g, p := MergedSpans(Grouped(result.issues)), ProcessResults(result, html).value;
      && |p.lineRanges| == |g| == p.summary.totalRanges
      && p.summary.totalIssues == |LocatedKeys(result.issues)|
  {
    ProcessUnfolds(result, html);
    RankedShape(result.issues);
    RankedTotal(result.issues);
    var g := MergedSpans(Grouped(result.issues));
    var sorted := Reverse(AsItems(g));
    ContextKeeps(sorted, html);
    var final := WithContext(sorted, html).value;
    TotalSame(final, IssuesByEnd(final));
  }

  /** In every range of `process_matched_results` the issues run from the last end line up. */
  lemma ProcessIssueOrder(result: IssueSet, html: Option<string>)
    requires LinesInOrder(result.issues)
    ensures ProcessResults(result, html).Success?
    ensures var p := ProcessResults(result, html).value;
      forall i, a, b :: 0 <= i < |p.lineRanges| && 0 <= a < b < |p.lineRanges[i].issues| ==>
        EndOrZero(p.lineRanges[i].issues[a]) >= EndOrZero(p.lineRanges[i].issues[b])
  {
    ProcessUnfolds(result, html);
    var g := MergedSpans(Grouped(result.issues));
    var final := WithContext(Reverse(AsItems(g)), html).value;
    IssuesByEndOrdered(final);
  }

  /** After the per-range sort, every range's issues run from the last end line up. */
  lemma IssuesByEndOrdered(d: seq<RangeGroup>)
    ensures var r := IssuesByEnd(d);
      forall i, a, b :: 0 <= i < |r| && 0 <= a < b < |r[i].issues| ==>
        EndOrZero(r[i].issues[a]) >= EndOrZero(r[i].issues[b])
  {
    var r := IssuesByEnd(d);
    forall i | 0 <= i < |r|
      ensures forall a, b :: 0 <= a < b < |r[i].issues| ==> EndOrZero(r[i].issues[a]) >= EndOrZero(r[i].issues[b])
    {
      SortByDescSorted(d[i].issues, EndOrZero);
    }
  }

  /**
   * Given a page, every issue of a range of `process_matched_results`
   * carries that range's key and the page section of its lines, and is a
   * located input issue whose own lines lie within that range.
   */
  lemma ProcessSections(result: IssueSet, html: Option<string>)
    requires LinesInOrder(result.issues) && !NoPage(html)
    ensures ParseAll(Grouped(result.issues)).Success?
    ensures ProcessResults(result, html).Success?
    ensures |ProcessResults(result, html).value.lineRanges| == |MergedSpans(Grouped(result.issues))|
    ensures var g, p := MergedSpans(Grouped(result.issues)), ProcessResults(result, html).value;
      forall i, k :: 0 <= i < |g| && 0 <= k < |p.lineRanges[i].issues| ==>
        && p.lineRanges[i].issues[k].lineRange == Some(p.lineRanges[i].key)
        && p.lineRanges[i].issues[k].rawHtml == Some(Section(Split(html.value, '\n'), g[|g| - 1 - i].start, g[|g| - 1 - i].end))
        && InputInside(p.lineRanges[i].issues[k], result.issues, g[|g| - 1 - i])
  {
    ProcessPlacement(result, html);
    ProcessUnfolds(result, html);
    var g := MergedSpans(Grouped(result.issues));
    BottomUpSections(g, html);
    var final := WithContext(Reverse(AsItems(g)), html).value;
    IssuesByEndMembers(final);
    var ordered := IssuesByEnd(final);
    forall i, k | 0 <= i < |g| && 0 <= k < |ordered[i].issues|
      ensures ordered[i].issues[k].lineRange == Some(ordered[i].key)
      ensures ordered[i].issues[k].rawHtml == Some(Section(Split(html.value, '\n'), g[|g| - 1 - i].start, g[|g| - 1 - i].end))
    {
      var m :| 0 <= m < |final[i].issues| && final[i].issues[m] == ordered[i].issues[k];
    }
  }

  /** Given a page, the context added to the merged ranges, bottom of the page first. */
  lemma BottomUpSections(gs: seq<Span>, html: Option<string>)
    requires NonNegative(gs) && !NoPage(html)
    ensures WithContext(Reverse(AsItems(gs)), html).Success?
    ensures var r := WithContext(Reverse(AsItems(gs)), html).value;
      && |r| == |gs|
      && forall i, k :: 0 <= i < |gs| && 0 <= k < |r[i].issues| ==>
        && r[i].issues[k].lineRange == Some(r[i].key)
        && r[i].issues[k].rawHtml == Some(Section(Split(html.value, '\n'), gs[|gs| - 1 - i].start, gs[|gs| - 1 - i].end))
  {
    var sorted := Reverse(AsItems(gs));
    BottomUpKeys(gs);
    ContextKeeps(sorted, html);
    assert Keys(WithContext(sorted, html).value) == Keys(sorted);
  }

  /** Sorting a group's issues only reorders them. */
  lemma IssuesByEndMembers(d: seq<RangeGroup>)
    ensures forall i, k :: 0 <= i < |d| && 0 <= k < |IssuesByEnd(d)[i].issues| ==>
      IssuesByEnd(d)[i].key == d[i].key && IssuesByEnd(d)[i].issues[k] in d[i].issues
  {
    var r := IssuesByEnd(d);
    forall i | 0 <= i < |d|
      ensures r[i].key == d[i].key && multiset(r[i].issues) == multiset(d[i].issues)
    {
    }
    forall i, k | 0 <= i < |d| && 0 <= k < |r[i].issues|
      ensures r[i].issues[k] in d[i].issues
    {
      assert r[i].issues[k] in multiset(d[i].issues);
    }
  }

  /** `y` is `x` with at most the two fields `add_raw_html_context` writes changed. */
  predicate Rewritten(y: Issue, x: Issue) {
    y.(rawHtml := x.rawHtml, lineRange := x.lineRange) == x
  }

  /** `y` is one of the issues `xs`, rewritten. */
  ghost predicate RewrittenFrom(y: Issue, xs: seq<Issue>) {
    exists j :: 0 <= j < |xs| && Rewritten(y, xs[j])
  }

  /** One of the issues `ys` is `x`, rewritten. */
  ghost predicate RewrittenIn(ys: seq<Issue>, x: Issue) {
    exists k :: 0 <= k < |ys| && Rewritten(ys[k], x)
  }

  /** `y` is a located issue of the input, rewritten, whose own lines lie inside `s`. */
  ghost predicate InputInside(y: Issue, issues: seq<Issue>, s: Span) {
    exists n :: 0 <= n < |issues| && Located(issues[n]) && InsideSpan(IssueSpan(issues[n]), s) && Rewritten(y, issues[n])
  }

  /**
   * Adding the context and sorting each range's issues neither adds nor
   * drops an issue of a range: every issue that comes out of range `i` is
   * one of its issues rewritten, and every issue of range `i` comes out of
   * it rewritten.
   */
  lemma ContextSortKeeps(d: seq<RangeGroup>, html: Option<string>)
    requires WithContext(d, html).Success?
    ensures var r := IssuesByEnd(WithContext(d, html).value);
      && |r| == |d|
      && (forall i, k :: 0 <= i < |d| && 0 <= k < |r[i].issues| ==> RewrittenFrom(r[i].issues[k], d[i].issues))
      && (forall i, j :: 0 <= i < |d| && 0 <= j < |d[i].issues| ==> RewrittenIn(r[i].issues, d[i].issues[j]))
  {
    var e := WithContext(d, html).value;
    var r := IssuesByEnd(e);
    ContextRewrites(d, html);
    forall i, k | 0 <= i < |d| && 0 <= k < |r[i].issues|
      ensures RewrittenFrom(r[i].issues[k], d[i].issues)
    {
      var j := PermutedFrom(r[i].issues, e[i].issues, k);
      assert Rewritten(e[i].issues[j], d[i].issues[j]);
    }
    forall i, j | 0 <= i < |d| && 0 <= j < |d[i].issues|
      ensures RewrittenIn(r[i].issues, d[i].issues[j])
    {
      var k := PermutedFrom(e[i].issues, r[i].issues, j);
      assert Rewritten(e[i].issues[j], d[i].issues[j]);
    }
  }

  /** Adding the context rewrites each issue in place. */
  lemma ContextRewrites(d: seq<RangeGroup>, html: Option<string>)
    requires WithContext(d, html).Success?
    ensures var e := WithContext(d, html).value;
      && |e| == |d|
      && (forall i :: 0 <= i < |d| ==> |e[i].issues| == |d[i].issues| && multiset(IssuesByEnd(e)[i].issues) == multiset(e[i].issues))
      && forall i, j :: 0 <= i < |d| && 0 <= j < |d[i].issues| ==> Rewritten(e[i].issues[j], d[i].issues[j])
  {
  }

  /** Where an element of a reordering sits in the original. */
  lemma PermutedFrom(r: seq<Issue>, e: seq<Issue>, k: nat) returns (j: nat)
    requires multiset(r) == multiset(e) && k < |r|
    ensures j < |e| && e[j] == r[k]
  {
    assert r[k] in multiset(e);
    j :| 0 <= j < |e| && e[j] == r[k];
  }

  /**
   * Each issue of range `i` of `process_matched_results` is a located
   * input issue, rewritten, whose own lines lie inside merged range
   * `|g| - 1 - i`; and every located input issue comes out, rewritten, in
   * the range that holds its lines.
   */
  lemma ProcessPlacement(result: IssueSet, html: Option<string>)
    requires LinesInOrder(result.issues)
    ensures ParseAll(Grouped(result.issues)).Success?
    ensures ProcessResults(result, html).Success?
    ensures var g, p := MergedSpans(Grouped(result.issues)), ProcessResults(result, html).value;
      && |p.lineRanges| == |g|
      && (forall i, k :: 0 <= i < |g| && 0 <= k < |p.lineRanges[i].issues| ==>
            InputInside(p.lineRanges[i].issues[k], result.issues, g[|g| - 1 - i]))
      && (forall n, i ::
            && 0 <= n < |result.issues| && Located(result.issues[n]) && 0 <= i < |g|
            && InsideSpan(IssueSpan(result.issues[n]), g[|g| - 1 - i])
            ==> RewrittenIn(p.lineRanges[i].issues, result.issues[n]))
  {
    var issues := result.issues;
    ProcessUnfolds(result, html);
    var g := MergedSpans(Grouped(issues));
    var d := Reverse(AsItems(g));
    ContextSortKeeps(d, html);
    RankedMembers(issues);
    RankedPlacement(issues);
    var r := IssuesByEnd(WithContext(d, html).value);
    PlacedSound(issues, g, d, r);
    PlacedComplete(issues, g, d, r);
  }

  /**
   * Ranges that hold, bottom up and rewritten, the issues of merged ranges
   * `g` hold only located input issues within their merged range's lines.
   */
  lemma PlacedSound(issues: seq<Issue>, g: seq<Span>, d: seq<RangeGroup>, r: seq<RangeGroup>)
    requires |d| == |g| == |r| && forall i :: 0 <= i < |g| ==> d[i].issues == g[|g| - 1 - i].issues
    requires forall i, k :: 0 <= i < |d| && 0 <= k < |r[i].issues| ==> RewrittenFrom(r[i].issues[k], d[i].issues)
    requires forall m, j :: 0 <= m < |g| && 0 <= j < |g[m].issues| ==>
      g[m].issues[j] in issues && Located(g[m].issues[j]) && InsideSpan(IssueSpan(g[m].issues[j]), g[m])
    ensures forall i, k :: 0 <= i < |g| && 0 <= k < |r[i].issues| ==> InputInside(r[i].issues[k], issues, g[|g| - 1 - i])
  {
    forall i, k | 0 <= i < |g| && 0 <= k < |r[i].issues|
      ensures InputInside(r[i].issues[k], issues, g[|g| - 1 - i])
    {
      var m := |g| - 1 - i;
      assert RewrittenFrom(r[i].issues[k], d[i].issues);
      var j :| 0 <= j < |d[i].issues| && Rewritten(r[i].issues[k], d[i].issues[j]);
      var x := g[m].issues[j];
      assert x in issues && Located(x) && InsideSpan(IssueSpan(x), g[m]);
      var n :| 0 <= n < |issues| && issues[n] == x;
    }
  }

  /**
   * Ranges that hold, bottom up and rewritten, the issues of merged ranges
   * `g` hold every located input issue in the range that holds its lines.
   */
  lemma PlacedComplete(issues: seq<Issue>, g: seq<Span>, d: seq<RangeGroup>, r: seq<RangeGroup>)
    requires |d| == |g| == |r| && forall i :: 0 <= i < |g| ==> d[i].issues == g[|g| - 1 - i].issues
    requires forall i, j :: 0 <= i < |d| && 0 <= j < |d[i].issues| ==> RewrittenIn(r[i].issues, d[i].issues[j])
    requires forall n, m :: 0 <= n < |issues| && Located(issues[n]) && 0 <= m < |g| ==>
      (issues[n] in g[m].issues <==> InsideSpan(IssueSpan(issues[n]), g[m]))
    ensures forall n, i ::
      && 0 <= n < |issues| && Located(issues[n]) && 0 <= i < |g|
      && InsideSpan(IssueSpan(issues[n]), g[|g| - 1 - i])
      ==> RewrittenIn(r[i].issues, issues[n])
  {
    forall n, i | 0 <= n < |issues| && Located(issues[n]) && 0 <= i < |g| && InsideSpan(IssueSpan(issues[n]), g[|g| - 1 - i])
      ensures RewrittenIn(r[i].issues, issues[n])
    {
      var m := |g| - 1 - i;
      assert issues[n] in g[m].issues;
      var j :| 0 <= j < |g[m].issues| && g[m].issues[j] == issues[n];
      assert RewrittenIn(r[i].issues, d[i].issues[j]);
    }
  }

  // ---------------------------------------------------------------- get_line_ranges_for_llm

  /** The seven fields `get_line_ranges_for_llm` copies out of an issue. */
  datatype LlmIssue = LlmIssue(
    auditId: string, title: string, description: Option<string>, matchHtml: Option<string>,
    rawHtml: Option<string>, matchLineStart: Option<int>, matchLineEnd: Option<int>)

  /** `"range_info"`. */
  datatype RangeInfo = RangeInfo(startLine: int, endLine: int, lineCount: int, issueCount: nat)

  /** One element of the list `get_line_ranges_for_llm` returns. */
  datatype LlmRange = LlmRange(lineRange: string, rangeInfo: RangeInfo, issues: seq<LlmIssue>)

  function ForLlm(it: Issue): LlmIssue {
    LlmIssue(it.auditId, it.title, it.description, it.matchHtml, it.rawHtml, it.matchLineStart, it.matchLineEnd)
  }

  /**
   * The record for one entry: the start is `int(key.split('-')[0])` and the
   * end `int(key.split('-')[1])`, read in that order, so a key with extra
   * parts is accepted and one without a '-' raises `IndexError`.
   */
  function LlmRangeOf(g: RangeGroup): Result<LlmRange> {
    var start :- KeyPart(g.key, 0);
    var end :- KeyPart(g.key, 1);
    Success(LlmRange(g.key, RangeInfo(start, end, end - start + 1, |g.issues|),
                     seq(|g.issues|, k requires 0 <= k < |g.issues| => ForLlm(g.issues[k]))))
  }

  /** The records `build` makes for the entries, or the exception of the first entry it has none for. */
  function Collect(d: seq<RangeGroup>, build: RangeGroup -> Result<LlmRange>): (r: Result<seq<LlmRange>>)
    ensures r.Success? ==> |r.value| == |d|
  {
    if d == [] then Success([])
    else
      var init :- Collect(d[..|d| - 1], build);
      var last :- build(d[|d| - 1]);
      Success(init + [last])
  }

  /** What `get_line_ranges_for_llm` returns for processed data. */
  function LineRangesForLlm(p: Processed): Result<seq<LlmRange>> {
    Collect(p.lineRanges, LlmRangeOf)
  }

  /** `get_line_ranges_for_llm`. */
  method GetLineRangesForLlm(p: Processed) returns (r: Result<seq<LlmRange>>)
    ensures r == LineRangesForLlm(p)
  {
    r := CollectRecords(p.lineRanges, LlmRangeOf);
  }

  /** The loop of `get_line_ranges_for_llm`, one record appended per entry. */
  method CollectRecords(d: seq<RangeGroup>, build: RangeGroup -> Result<LlmRange>) returns (r: Result<seq<LlmRange>>)
    ensures r == Collect(d, build)
  {
    var out: seq<LlmRange> := [];
    for i := 0 to |d|
      invariant Collect(d[..i], build) == Success(out)
    {
      assert d[..i + 1][..i] == d[..i];
      var range := build(d[i]);
      if range.Failure? {
        CollectFailStays(d, i + 1, build);
        return Failure(range.error);
      }
      out := out + [range.value];
    }
    assert d[..|d|] == d;
    return Success(out);
  }

  /** Once an entry has no record, the result is that entry's exception, whatever follows. */
  lemma {:induction false} CollectFailStays(d: seq<RangeGroup>, m: nat, build: RangeGroup -> Result<LlmRange>)
    requires m <= |d| && Collect(d[..m], build).Failure?
    ensures Collect(d, build) == Collect(d[..m], build)
    decreases |d| - m
  {
    if m < |d| {
      var init := d[..|d| - 1];
      assert init[..m] == d[..m];
      CollectFailStays(init, m, build);
    } else {
      assert d[..m] == d;
    }
  }

  /** When every entry has a record, the result is those records in entry order. */
  lemma {:induction false} CollectEach(d: seq<RangeGroup>, build: RangeGroup -> Result<LlmRange>)
    requires forall i :: 0 <= i < |d| ==> build(d[i]).Success?
    ensures Collect(d, build).Success?
    ensures forall i :: 0 <= i < |d| ==> Collect(d, build).value[i] == build(d[i]).value
  {
    if d != [] {
      var n := |d| - 1;
      assert forall i :: 0 <= i < n ==> d[..n][i] == d[i];
      CollectEach(d[..n], build);
    }
  }

  /**
   * When every key unpacks into its range, each entry gets a record with
   * its key, its lines, `end - start + 1` lines counted, its issue count,
   * and its issues' fields in order.
   */
  lemma LlmRangesOf(d: seq<RangeGroup>, spans: seq<Span>)
    requires |spans| == |d|
    requires forall i :: 0 <= i < |d| ==> ParseKey(d[i].key) == Success((spans[i].start, spans[i].end))
    ensures Collect(d, LlmRangeOf).Success?
    ensures forall i :: 0 <= i < |d| ==> var r := Collect(d, LlmRangeOf).value[i];
      && r.lineRange == d[i].key
      && r.rangeInfo == RangeInfo(spans[i].start, spans[i].end, spans[i].end - spans[i].start + 1, |d[i].issues|)
      && |r.issues| == |d[i].issues|
      && (forall k :: 0 <= k < |d[i].issues| ==> r.issues[k] == ForLlm(d[i].issues[k]))
  {
    forall i | 0 <= i < |d| ensures LlmRangeFits(d[i], spans[i]) {
      LlmRangeOfKey(d[i], spans[i]);
    }
    CollectEach(d, LlmRangeOf);
  }

  /** The record for one entry whose key unpacks into the lines of `x`. */
  predicate LlmRangeFits(g: RangeGroup, x: Span) {
    LlmRangeOf(g).Success?
    && var r := LlmRangeOf(g).value;
    && r.lineRange == g.key
    && r.rangeInfo == RangeInfo(x.start, x.end, x.end - x.start + 1, |g.issues|)
    && |r.issues| == |g.issues|
    && (forall k :: 0 <= k < |g.issues| ==> r.issues[k] == ForLlm(g.issues[k]))
  }

  lemma LlmRangeOfKey(g: RangeGroup, x: Span)
    requires ParseKey(g.key) == Success((x.start, x.end))
    ensures LlmRangeFits(g, x)
  {
    KeyPartsAgree(g.key);
    LlmRangeOfParts(g, x);
  }

  /** The record for an entry whose key parts read as the lines of `x`. */
  lemma LlmRangeOfParts(g: RangeGroup, x: Span)
    requires KeyPart(g.key, 0) == Success(x.start) && KeyPart(g.key, 1) == Success(x.end)
    ensures LlmRangeFits(g, x)
  {
  }

  /**
   * For issues in line order the processed data always yields records for
   * the model: one per merged range, bottom of the page first, each
   * counting `end - start + 1 >= 1` lines and as many issues as its range.
   */
  lemma LlmOfProcessed(result: IssueSet, html: Option<string>)
    requires LinesInOrder(result.issues)
    ensures ParseAll(Grouped(result.issues)).Success?
    ensures ProcessResults(result, html).Success?
    ensures LineRangesForLlm(ProcessResults(result, html).value).Success?
    ensures var g, p := MergedSpans(Grouped(result.issues)), ProcessResults(result, html).value;
      var r := LineRangesForLlm(p).value;
      && |r| == |g| == |p.lineRanges|
      && forall i :: 0 <= i < |g| ==>
        && r[i].rangeInfo.startLine == g[|g| - 1 - i].start
        && r[i].rangeInfo.endLine == g[|g| - 1 - i].end
        && r[i].rangeInfo.lineCount >= 1
        && r[i].rangeInfo.issueCount == |p.lineRanges[i].issues|
  {
    ProcessKeys(result, html);
    RankedShape(result.issues);
    BottomUpRecords(ProcessResults(result, html).value.lineRanges, MergedSpans(Grouped(result.issues)));
  }

  /** The records for entries keyed by well-formed ranges listed bottom of the page first. */
  lemma BottomUpRecords(d: seq<RangeGroup>, gs: seq<Span>)
    requires |d| == |gs| && WellFormedSpans(gs)
    requires forall i :: 0 <= i < |d| ==> ParseKey(d[i].key) == Success((Reverse(gs)[i].start, Reverse(gs)[i].end))
    ensures Collect(d, LlmRangeOf).Success?
    ensures var r := Collect(d, LlmRangeOf).value;
      && |r| == |gs|
      && forall i :: 0 <= i < |gs| ==>
        && r[i].rangeInfo.startLine == gs[|gs| - 1 - i].start
        && r[i].rangeInfo.endLine == gs[|gs| - 1 - i].end
        && r[i].rangeInfo.lineCount >= 1
        && r[i].rangeInfo.issueCount == |d[i].issues|
  {
    LlmRangesOf(d, Reverse(gs));
  }

  /** The keys of the processed ranges unpack into the merged ranges, bottom of the page first. */
  lemma ProcessKeys(result: IssueSet, html: Option<string>)
    requires LinesInOrder(result.issues)
    ensures ParseAll(Grouped(result.issues)).Success?
    ensures ProcessResults(result, html).Success?
    ensures var g, d := MergedSpans(Grouped(result.issues)), ProcessResults(result, html).value.lineRanges;
      && |d| == |g|
      && forall i :: 0 <= i < |d| ==> ParseKey(d[i].key) == Success((Reverse(g)[i].start, Reverse(g)[i].end))
  {
    ProcessShape(result, html);
    ProcessUnfolds(result, html);
    KeysOfReversed(ProcessResults(result, html).value.lineRanges, MergedSpans(Grouped(result.issues)));
  }

  /** Entries keyed by the ranges of `g`, last range first, unpack into those ranges. */
  lemma KeysOfReversed(d: seq<RangeGroup>, g: seq<Span>)
    requires NonNegative(g) && |d| == |g|
    requires forall i :: 0 <= i < |g| ==> d[i].key == RangeKey(g[|g| - 1 - i].start, g[|g| - 1 - i].end)
    ensures forall i :: 0 <= i < |d| ==> ParseKey(d[i].key) == Success((Reverse(g)[i].start, Reverse(g)[i].end))
  {
    forall i | 0 <= i < |d| ensures ParseKey(d[i].key) == Success((Reverse(g)[i].start, Reverse(g)[i].end)) {
      var x := g[|g| - 1 - i];
      KeyRoundTrip(x.start, x.end);
    }
  }

  /**
   * Unlike the merge, the record builder reads keys part by part: a key
   * with a third part still yields a record from its first two parts,
   * where unpacking it raises.
   */
  lemma KeyPartIgnoresExtraParts(start: nat, end: nat, rest: string)
    requires '-' !in rest
    ensures KeyPart(RangeKey(start, end) + "-" + rest, 0) == Success(start)
    ensures KeyPart(RangeKey(start, end) + "-" + rest, 1) == Success(end)
    ensures ParseKey(RangeKey(start, end) + "-" + rest).Failure?
  {
    var key := RangeKey(start, end) + "-" + rest;
    ThreeParts(start, end, rest);
    assert Split(key, '-')[0] == NatToString(start) && Split(key, '-')[1] == NatToString(end);
    ParseNatString(start);
    ParseNatString(end);
  }

  /** A range key followed by one more part splits into three parts. */
  lemma ThreeParts(start: nat, end: nat, rest: string)
    requires '-' !in rest
    ensures Split(RangeKey(start, end) + "-" + rest, '-') == [NatToString(start), NatToString(end), rest]
  {
    var a, b := NatToString(start), NatToString(end);
    DigitsHaveNoMinus(a);
    DigitsHaveNoMinus(b);
    assert RangeKey(start, end) + "-" + rest == a + ['-'] + b + ['-'] + rest;
    SplitThree(a, b, rest, '-');
  }

  // ---------------------------------------------------------------- transform_matched_result

  /** The four fields `transform_matched_result` keeps of an issue. */
  datatype FilteredIssue = FilteredIssue(title: string, rawHtml: Option<string>, startLine: Option<int>, endLine: Option<int>)

  /** One range of the list `transform_matched_result` returns. */
  datatype RangeOut = RangeOut(startLine: int, endLine: int, issueCount: nat, sectionHtml: string, issues: seq<FilteredIssue>)

  /** `raw_html` is the matched snippet, `start_line`/`end_line` the issue's own lines. */
  function Filtered(it: Issue): FilteredIssue {
    FilteredIssue(it.title, it.matchHtml, it.matchLineStart, it.matchLineEnd)
  }

  /** `x.get("end_line", 0)`. */
  function FilteredEnd(f: FilteredIssue): int {
    f.endLine.GetOr(0)
  }

  /** The section of a range, or `""` when there is no page text. */
  function PageSection(html: Option<string>, start: int, end: int): string {
    if NoPage(html) then "" else Section(Split(html.value, '\n'), start, end)
  }

  /** The kept fields of each issue, in order. */
  function Kept(issues: seq<Issue>): (r: seq<FilteredIssue>)
    ensures |r| == |issues|
  {
    seq(|issues|, k requires 0 <= k < |issues| => Filtered(issues[k]))
  }

  /** A range reshaped: its lines, its section and its issues' kept fields, last end line first. */
  function Reshape(x: Span, html: Option<string>): RangeOut {
    var filtered := SortByDesc(Kept(x.issues), FilteredEnd);
    RangeOut(x.start, x.end, |filtered|, PageSection(html, x.start, x.end), filtered)
  }

  /** What `transform_matched_result` returns, or the exception it raises. */
  function TransformResult(result: IssueSet, html: Option<string>): Result<seq<RangeOut>> {
    var sorted :- RankedRanges(result.issues);
    var spans :- ParseAll(sorted);
    Success(ReshapedAll(spans, html))
  }

  /** Every range reshaped, in order. */
  function ReshapedAll(spans: seq<Span>, html: Option<string>): (r: seq<RangeOut>)
    ensures |r| == |spans|
  {
    if spans == [] then []
    else ReshapedAll(spans[..|spans| - 1], html) + [Reshape(spans[|spans| - 1], html)]
  }

  lemma {:induction false} ReshapedAllAt(spans: seq<Span>, html: Option<string>)
    ensures forall i :: 0 <= i < |spans| ==> ReshapedAll(spans, html)[i] == Reshape(spans[i], html)
  {
    if spans != [] {
      var n := |spans| - 1;
      ReshapedAllAt(spans[..n], html);
    }
  }

  /** `transform_matched_result`, without its progress output. */
  method TransformMatchedResult(result: IssueSet, html: Option<string>) returns (r: Result<seq<RangeOut>>)
    ensures r == TransformResult(result, html)
  {
    var d := ExtractLineRanges(result.issues);
    var merged :- MergeOverlappingRanges(d);
    var sorted :- SortRangesBySize(merged);
    var spans :- ReadRanges(sorted);
    var out := ReshapeAll(spans, html);
    return Success(out);
  }

  /** The output loop of `transform_matched_result`. */
  method ReshapeAll(spans: seq<Span>, html: Option<string>) returns (out: seq<RangeOut>)
    ensures out == ReshapedAll(spans, html)
  {
    out := [];
    for i := 0 to |spans|
      invariant out == ReshapedAll(spans[..i], html)
    {
      var range := ReshapeRange(spans[i], html);
      ReshapedAllSnoc(spans, i, html);
      out := out + [range];
    }
    assert spans[..|spans|] == spans;
  }

  lemma ReshapedAllSnoc(spans: seq<Span>, i: nat, html: Option<string>)
    requires i < |spans|
    ensures ReshapedAll(spans[..i + 1], html) == ReshapedAll(spans[..i], html) + [Reshape(spans[i], html)]
  {
    assert spans[..i + 1][..i] == spans[..i];
  }

  /** One turn of the output loop: the section, the kept fields, the sort and the record. */
  method ReshapeRange(x: Span, html: Option<string>) returns (r: RangeOut)
    ensures r == Reshape(x, html)
  {
    var section := "";
    if !NoPage(html) {
      var lines := Split(html.value, '\n');
      section := Section(lines, x.start, x.end);
    }
    var filtered := FilterIssues(x.issues);
    filtered := SortByDesc(filtered, FilteredEnd);
    r := RangeOut(x.start, x.end, |filtered|, section, filtered);
  }

  /** The inner loop of `transform_matched_result` that keeps four fields of each issue. */
  method FilterIssues(issues: seq<Issue>) returns (filtered: seq<FilteredIssue>)
    ensures filtered == Kept(issues)
  {
    filtered := [];
    for k := 0 to |issues|
      invariant |filtered| == k
      invariant forall m :: 0 <= m < k ==> filtered[m] == Filtered(issues[m])
    {
      filtered := filtered + [Filtered(issues[k])];
    }
  }

  /** Each reshaped range keeps the lines of its span, counts its issues and carries its section. */
  lemma ReshapedFields(spans: seq<Span>, html: Option<string>)
    ensures var out := ReshapedAll(spans, html);
      forall i :: 0 <= i < |spans| ==>
        && out[i].startLine == spans[i].start && out[i].endLine == spans[i].end
        && out[i].issueCount == |out[i].issues| == |spans[i].issues|
        && out[i].sectionHtml == PageSection(html, spans[i].start, spans[i].end)
  {
    ReshapedAllAt(spans, html);
  }

  /** Within each reshaped range the issues run from the last end line up. */
  lemma ReshapedOrder(spans: seq<Span>, html: Option<string>)
    ensures var out := ReshapedAll(spans, html);
      forall i, a, b :: 0 <= i < |out| && 0 <= a < b < |out[i].issues| ==>
        FilteredEnd(out[i].issues[a]) >= FilteredEnd(out[i].issues[b])
  {
    ReshapedAllAt(spans, html);
    var out := ReshapedAll(spans, html);
    forall i | 0 <= i < |out|
      ensures forall a, b :: 0 <= a < b < |out[i].issues| ==> FilteredEnd(out[i].issues[a]) >= FilteredEnd(out[i].issues[b])
    {
      SortByDescSorted(Kept(spans[i].issues), FilteredEnd);
    }
  }

  /** For issues in line order the output is the merged ranges reshaped, bottom of the page first. */
  lemma TransformUnfolds(result: IssueSet, html: Option<string>)
    requires LinesInOrder(result.issues)
    ensures ParseAll(Grouped(result.issues)).Success?
    ensures var g := MergedSpans(Grouped(result.issues));
      && Separated(g) && WellFormedSpans(g) && NonNegative(g)
      && TransformResult(result, html) == Success(ReshapedAll(Reverse(g), html))
  {
    RankedShape(result.issues);
    BottomUpKeys(MergedSpans(Grouped(result.issues)));
  }

  /**
   * For issues in line order `transform_matched_result` succeeds with one
   * range per merged range, from the bottom of the page up: each range is
   * well formed, and each ends more than a line above the start of the
   * range before it. Each range counts its issues.
   */
  lemma TransformShape(result: IssueSet, html: Option<string>)
    requires LinesInOrder(result.issues)
    ensures ParseAll(Grouped(result.issues)).Success?
    ensures TransformResult(result, html).Success?
    ensures var g, out := MergedSpans(Grouped(result.issues)), TransformResult(result, html).value;
      && |out| == |g|
      && (forall i :: 0 <= i < |out| ==>
            && out[i].startLine == g[|g| - 1 - i].start && out[i].endLine == g[|g| - 1 - i].end
            && 0 <= out[i].startLine <= out[i].endLine
            && out[i].issueCount == |out[i].issues| == |g[|g| - 1 - i].issues|)
      && (forall i, j :: 0 <= i < j < |out| ==> out[j].endLine + 1 < out[i].startLine)
  {
    TransformUnfolds(result, html);
    var g := MergedSpans(Grouped(result.issues));
    ReshapedFields(Reverse(g), html);
    ReversedRanges(g, ReshapedAll(Reverse(g), html));
  }

  /** Ranges carrying the lines of separated spans in reverse order are well formed and run up the page. */
  lemma ReversedRanges(g: seq<Span>, out: seq<RangeOut>)
    requires Separated(g) && WellFormedSpans(g) && NonNegative(g) && |out| == |g|
    requires forall i :: 0 <= i < |g| ==>
      && out[i].startLine == Reverse(g)[i].start && out[i].endLine == Reverse(g)[i].end
      && out[i].issueCount == |out[i].issues| == |Reverse(g)[i].issues|
    ensures forall i :: 0 <= i < |out| ==>
      && out[i].startLine == g[|g| - 1 - i].start && out[i].endLine == g[|g| - 1 - i].end
      && 0 <= out[i].startLine <= out[i].endLine
      && out[i].issueCount == |out[i].issues| == |g[|g| - 1 - i].issues|
    ensures forall i, j :: 0 <= i < j < |out| ==> out[j].endLine + 1 < out[i].startLine
  {
    forall i, j | 0 <= i < j < |out|
      ensures out[j].endLine + 1 < out[i].startLine
    {
      assert out[j].endLine == g[|g| - 1 - j].end && out[i].startLine == g[|g| - 1 - i].start;
    }
  }

  /** Within each range of `transform_matched_result` the issues run from the last end line up. */
  lemma TransformIssueOrder(result: IssueSet, html: Option<string>)
    requires LinesInOrder(result.issues)
    ensures TransformResult(result, html).Success?
    ensures var out := TransformResult(result, html).value;
      forall i, a, b :: 0 <= i < |out| && 0 <= a < b < |out[i].issues| ==>
        FilteredEnd(out[i].issues[a]) >= FilteredEnd(out[i].issues[b])
  {
    TransformUnfolds(result, html);
    ReshapedOrder(Reverse(MergedSpans(Grouped(result.issues))), html);
  }

  /** The issue lies within the lines of the output range. */
  predicate InsideOut(it: Issue, r: RangeOut)
    requires Located(it)
  {
    r.startLine <= it.matchLineStart.value && it.matchLineEnd.value <= r.endLine
  }

  ghost predicate CoveredOut(it: Issue, out: seq<RangeOut>)
    requires Located(it)
  {
    exists i :: 0 <= i < |out| && InsideOut(it, out[i])
  }

  /** Every located issue lies within the lines of some range of `transform_matched_result`. */
  lemma TransformCovers(result: IssueSet, html: Option<string>)
    requires LinesInOrder(result.issues)
    ensures TransformResult(result, html).Success?
    ensures var issues, out := result.issues, TransformResult(result, html).value;
      forall k :: 0 <= k < |issues| && Located(issues[k]) ==> CoveredOut(issues[k], out)
  {
    TransformShape(result, html);
    RankedCovers(result.issues);
    OutCovers(result.issues, MergedSpans(Grouped(result.issues)), TransformResult(result, html).value);
  }

  /** Ranges with the lines of `g`, bottom up, cover what `g` covers. */
  lemma OutCovers(issues: seq<Issue>, g: seq<Span>, out: seq<RangeOut>)
    requires |out| == |g|
    requires forall i :: 0 <= i < |out| ==> out[i].startLine == g[|g| - 1 - i].start && out[i].endLine == g[|g| - 1 - i].end
    requires forall k :: 0 <= k < |issues| && Located(issues[k]) ==> CoveredSpan(IssueSpan(issues[k]), g)
    ensures forall k :: 0 <= k < |issues| && Located(issues[k]) ==> CoveredOut(issues[k], out)
  {
    forall k | 0 <= k < |issues| && Located(issues[k]) ensures CoveredOut(issues[k], out) {
      var m :| 0 <= m < |g| && InsideSpan(IssueSpan(issues[k]), g[m]);
      assert InsideOut(issues[k], out[|g| - 1 - m]);
    }
  }

  /** No located issue lies within the lines of two ranges of `transform_matched_result`. */
  lemma TransformCoversOnce(result: IssueSet, html: Option<string>)
    requires LinesInOrder(result.issues)
    ensures TransformResult(result, html).Success?
    ensures var issues, out := result.issues, TransformResult(result, html).value;
      forall k, i, j :: 0 <= k < |issues| && Located(issues[k]) && 0 <= i < j < |out| ==>
        !(InsideOut(issues[k], out[i]) && InsideOut(issues[k], out[j]))
  {
    TransformShape(result, html);
  }

  /** `f` keeps the fields of a located input issue whose own lines lie within the output range `r`. */
  ghost predicate FilteredInside(f: FilteredIssue, issues: seq<Issue>, r: RangeOut) {
    exists n :: 0 <= n < |issues| && Located(issues[n]) && InsideOut(issues[n], r) && f == Filtered(issues[n])
  }

  /**
   * Each issue of an output range of `transform_matched_result` keeps the
   * fields of a located input issue whose own lines lie within that range;
   * and every located input issue is kept in the range within whose lines
   * it lies.
   */
  lemma TransformPlacement(result: IssueSet, html: Option<string>)
    requires LinesInOrder(result.issues)
    ensures TransformResult(result, html).Success?
    ensures var issues, out := result.issues, TransformResult(result, html).value;
      && (forall i, k :: 0 <= i < |out| && 0 <= k < |out[i].issues| ==> FilteredInside(out[i].issues[k], issues, out[i]))
      && (forall n, i ::
            && 0 <= n < |issues| && Located(issues[n]) && 0 <= i < |out| && InsideOut(issues[n], out[i])
            ==> Filtered(issues[n]) in out[i].issues)
  {
    var issues := result.issues;
    TransformUnfolds(result, html);
    var g := MergedSpans(Grouped(issues));
    BottomUpReshaped(g, html);
    RankedMembers(issues);
    RankedPlacement(issues);
    ReshapedSound(issues, g, ReshapedAll(Reverse(g), html));
    ReshapedComplete(issues, g, ReshapedAll(Reverse(g), html));
  }

  /** The merged ranges reshaped bottom-up keep their lines and, in some order, the filtered issues. */
  lemma BottomUpReshaped(g: seq<Span>, html: Option<string>)
    ensures var out := ReshapedAll(Reverse(g), html);
      && |out| == |g|
      && forall i :: 0 <= i < |out| ==>
        && out[i].startLine == g[|g| - 1 - i].start && out[i].endLine == g[|g| - 1 - i].end
        && multiset(out[i].issues) == multiset(Kept(g[|g| - 1 - i].issues))
  {
    var out := ReshapedAll(Reverse(g), html);
    ReshapedAllAt(Reverse(g), html);
    assert forall i :: 0 <= i < |out| ==> out[i] == Reshape(g[|g| - 1 - i], html);
  }

  /** Outputs that keep, bottom up, the issues of merged ranges `g` keep only located input issues within their lines. */
  lemma ReshapedSound(issues: seq<Issue>, g: seq<Span>, out: seq<RangeOut>)
    requires |out| == |g|
    requires forall i :: 0 <= i < |out| ==>
      && out[i].startLine == g[|g| - 1 - i].start && out[i].endLine == g[|g| - 1 - i].end
      && multiset(out[i].issues) == multiset(Kept(g[|g| - 1 - i].issues))
    requires forall m, j :: 0 <= m < |g| && 0 <= j < |g[m].issues| ==>
      g[m].issues[j] in issues && Located(g[m].issues[j]) && InsideSpan(IssueSpan(g[m].issues[j]), g[m])
    ensures forall i, k :: 0 <= i < |out| && 0 <= k < |out[i].issues| ==> FilteredInside(out[i].issues[k], issues, out[i])
  {
    forall i, k | 0 <= i < |out| && 0 <= k < |out[i].issues|
      ensures FilteredInside(out[i].issues[k], issues, out[i])
    {
      var m := |g| - 1 - i;
      var kept := Kept(g[m].issues);
      assert out[i].issues[k] in multiset(kept);
      var j :| 0 <= j < |kept| && kept[j] == out[i].issues[k];
      var x := g[m].issues[j];
      assert x in issues && Located(x) && InsideSpan(IssueSpan(x), g[m]);
      var n :| 0 <= n < |issues| && issues[n] == x;
      assert InsideOut(issues[n], out[i]);
    }
  }

  /** Outputs that keep, bottom up, the issues of merged ranges `g` keep every located input issue within whose lines it lies. */
  lemma ReshapedComplete(issues: seq<Issue>, g: seq<Span>, out: seq<RangeOut>)
    requires |out| == |g|
    requires forall i :: 0 <= i < |out| ==>
      && out[i].startLine == g[|g| - 1 - i].start && out[i].endLine == g[|g| - 1 - i].end
      && multiset(out[i].issues) == multiset(Kept(g[|g| - 1 - i].issues))
    requires forall n, m :: 0 <= n < |issues| && Located(issues[n]) && 0 <= m < |g| ==>
      (issues[n] in g[m].issues <==> InsideSpan(IssueSpan(issues[n]), g[m]))
    ensures forall n, i ::
      && 0 <= n < |issues| && Located(issues[n]) && 0 <= i < |out| && InsideOut(issues[n], out[i])
      ==> Filtered(issues[n]) in out[i].issues
  {
    forall n, i | 0 <= n < |issues| && Located(issues[n]) && 0 <= i < |out| && InsideOut(issues[n], out[i])
      ensures Filtered(issues[n]) in out[i].issues
    {
      var m := |g| - 1 - i;
      assert InsideSpan(IssueSpan(issues[n]), g[m]);
      var j :| 0 <= j < |g[m].issues| && g[m].issues[j] == issues[n];
      var kept := Kept(g[m].issues);
      assert kept[j] == Filtered(issues[n]);
      assert kept[j] in multiset(out[i].issues);
    }
  }

  /** Reshaping loses no issue: the ranges of `transform_matched_result` count every located issue. */
  lemma TransformTotal(result: IssueSet, html: Option<string>)
    requires LinesInOrder(result.issues)
    ensures TransformResult(result, html).Success?
    ensures IssueCountTotal(TransformResult(result, html).value) == |LocatedKeys(result.issues)|
  {
    TransformShape(result, html);
    RankedShape(result.issues);
    RankedTotal(result.issues);
    var g := MergedSpans(Grouped(result.issues));
    var out := TransformResult(result, html).value;
    var items := Reverse(AsItems(g));
    CountsMatch(out, items);
  }

  /** The sum of `issue_count` over the ranges. */
  function IssueCountTotal(out: seq<RangeOut>): nat {
    if out == [] then 0 else IssueCountTotal(out[..|out| - 1]) + out[|out| - 1].issueCount
  }

  lemma {:induction false} CountsMatch(out: seq<RangeOut>, d: seq<RangeGroup>)
    requires |out| == |d| && forall i :: 0 <= i < |d| ==> out[i].issueCount == |d[i].issues|
    ensures IssueCountTotal(out) == Total(d)
  {
    if d != [] {
      CountsMatch(out[..|out| - 1], d[..|d| - 1]);
    }
  }

  /** Given a page, each reshaped range that lies within it gets exactly its lines. */
  lemma ReshapedSections(spans: seq<Span>, html: Option<string>)
    requires !NoPage(html)
    ensures var out, lines := ReshapedAll(spans, html), Split(html.value, '\n');
      forall i :: 0 <= i < |out| && 1 <= out[i].startLine <= out[i].endLine <= |lines| ==>
        Split(out[i].sectionHtml, '\n') == lines[out[i].startLine - 1..out[i].endLine]
  {
    ReshapedFields(spans, html);
    var out := ReshapedAll(spans, html);
    forall i | 0 <= i < |out| && 1 <= out[i].startLine <= out[i].endLine <= |Split(html.value, '\n')|
      ensures Split(out[i].sectionHtml, '\n') == Split(html.value, '\n')[out[i].startLine - 1..out[i].endLine]
    {
      SectionLines(html.value, out[i].startLine, out[i].endLine);
    }
  }

  /**
   * Given a page, a range of `transform_matched_result` that lies within it
   * gets exactly its lines: the section splits back into lines `start..end`
   * of the page; and each of its issues keeps the fields of a located input
   * issue whose own lines lie within that range.
   */
  lemma TransformSections(result: IssueSet, html: Option<string>)
    requires LinesInOrder(result.issues) && !NoPage(html)
    ensures TransformResult(result, html).Success?
    ensures var out, lines := TransformResult(result, html).value, Split(html.value, '\n');
      forall i :: 0 <= i < |out| && 1 <= out[i].startLine <= out[i].endLine <= |lines| ==>
        Split(out[i].sectionHtml, '\n') == lines[out[i].startLine - 1..out[i].endLine]
    ensures var out := TransformResult(result, html).value;
      forall i, k :: 0 <= i < |out| && 0 <= k < |out[i].issues| ==> FilteredInside(out[i].issues[k], result.issues, out[i])
  {
    TransformPlacement(result, html);
    TransformUnfolds(result, html);
    ReshapedSections(Reverse(MergedSpans(Grouped(result.issues))), html);
  }
}
