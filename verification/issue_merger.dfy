/**
 * The interval merger (backend/app/core/issue_merger.py): located issues
 * become line-range records, records whose ranges overlap are merged
 * greedily in start order, and the merged list is ordered bottom-up.
 */
module IssueMerger {
  import opened Wrappers
  import opened Text
  import opened Issues
  import opened Sorting

  /**
   * One record of the simplified list: title, 1-based line range and HTML.
   * A normalised record also carries `descriptions` (its own title); a
   * finalised merge result has no such key.
   */
  datatype Record = Record(title: string, startLine: int, endLine: int, rawHtml: string,
                           descriptions: Option<seq<string>>)

  /** `current_issue`: the pending merge of a run of overlapping records. */
  datatype Group = Group(title: string, startLine: int, endLine: int, rawHtml: string, descriptions: seq<string>)

  function Start(r: Record): int { r.startLine }
  function End(r: Record): int { r.endLine }

  function Min(a: int, b: int): int { if a <= b then a else b }
  function Max(a: int, b: int): int { if a >= b then a else b }

  /** `_issues_overlap`: the two closed line ranges share a line. */
  predicate Overlap(s1: int, e1: int, s2: int, e2: int) {
    s1 <= e2 && e1 >= s2
  }

  /** Overlap does not depend on the order of the two ranges; ranges that only touch do not overlap. */
  lemma OverlapSymmetric(s1: int, e1: int, s2: int, e2: int)
    ensures Overlap(s1, e1, s2, e2) == Overlap(s2, e2, s1, e1)
    ensures !Overlap(10, 12, 13, 15)
    ensures s1 <= e1 && s2 <= e2 ==> (Overlap(s1, e1, s2, e2) <==> Max(s1, s2) <= Min(e1, e2))
  {
  }

  /** A record opens a group of its own. */
  function Open(r: Record): Group {
    Group(r.title, r.startLine, r.endLine, r.rawHtml, [r.title])
  }

  /** An overlapping record joins the pending group; a strictly longer HTML replaces the kept one. */
  function Absorb(g: Group, r: Record): Group {
    Group(g.title, Min(g.startLine, r.startLine), Max(g.endLine, r.endLine),
          if |r.rawHtml| > |g.rawHtml| then r.rawHtml else g.rawHtml,
          g.descriptions + [r.title])
  }

  /** The group the run `t[lo..hi]` makes, merged first to last. */
  function Build(t: seq<Record>, lo: nat, hi: nat): Group
    requires lo < hi <= |t|
    decreases hi
  {
    if hi == lo + 1 then Open(t[lo]) else Absorb(Build(t, lo, hi - 1), t[hi - 1])
  }

  /** One step of the scan: `x` joins the pending group, or closes it and opens its own. */
  function Step(gs: seq<Group>, x: Record): (r: seq<Group>)
    ensures r != [] && |gs| <= |r| <= |gs| + 1
  {
    if gs == [] then [Open(x)]
    else
      var g := gs[|gs| - 1];
      if Overlap(g.startLine, g.endLine, x.startLine, x.endLine) then gs[..|gs| - 1] + [Absorb(g, x)]
      else gs + [Open(x)]
  }

  /**
   * The greedy scan over the first `k` records (in start order): the groups
   * it has closed, in order, followed by the one still pending.
   */
  function Scan(t: seq<Record>, k: nat): (gs: seq<Group>)
    requires k <= |t|
    ensures (gs == []) == (k == 0) && |gs| <= k
  {
    if k == 0 then [] else Step(Scan(t, k - 1), t[k - 1])
  }

  // ---------------------------------------------------------------- titles

  /**
   * The title `_finalize_issue` builds from the descriptions of a group.
   * `list(set(descriptions))` enumerates the distinct descriptions in the
   * order of the set's hash table; `Dedup` picks the order of first
   * occurrence, and the title lemmas below hold for every order.
   */
  function FinalTitle(descs: seq<string>): string {
    if |descs| == 1 then descs[0] else CombinedTitle(Dedup(descs))
  }

  /** The title of a group with several descriptions, from an enumeration `u` of the distinct ones. */
  function CombinedTitle(u: seq<string>): string {
    if |u| == 1 then u[0] + " (multiple locations)"
    else "Multiple issues: " + Join(u[..Min(3, |u|)], "; ")
         + (if |u| > 3 then " and " + IntToString(|u|) + " total" else "")
  }

  /** `_finalize_issue`: the combined title, the range and the HTML; `descriptions` is dropped. */
  function Finalize(g: Group): Record {
    Record(FinalTitle(g.descriptions), g.startLine, g.endLine, g.rawHtml, None)
  }

  function FinalizeAll(gs: seq<Group>): (r: seq<Record>)
    ensures |r| == |gs| && forall i :: 0 <= i < |gs| ==> r[i] == Finalize(gs[i])
  {
    seq(|gs|, i requires 0 <= i < |gs| => Finalize(gs[i]))
  }

  /** What `merge_overlapping_issues` returns. */
  function Merge(issues: seq<Record>): seq<Record> {
    var sorted := SortBy(issues, Start);
    SortByDesc(FinalizeAll(Scan(sorted, |sorted|)), End)
  }

  /** `merge_overlapping_issues`. */
  method MergeOverlappingIssues(issues: seq<Record>) returns (merged: seq<Record>)
    ensures merged == Merge(issues)
    ensures |merged| <= |issues| && (merged == [] <==> issues == [])
  {
    if issues == [] {
      return [];
    }
    var sorted := SortBy(issues, Start);
    merged := MergeSorted(sorted);
    merged := SortByDesc(merged, End);
  }

  /** The loop of `merge_overlapping_issues` over the records in start order, before the final sort. */
  method MergeSorted(sorted: seq<Record>) returns (merged: seq<Record>)
    requires sorted != []
    ensures merged == FinalizeAll(Scan(sorted, |sorted|))
  {
    merged := [];
    var current: Option<Group> := None;
    ghost var closed: seq<Group> := [];
    var k := 0;
    while k < |sorted|
      invariant 0 <= k <= |sorted|
      invariant current.None? <==> k == 0
      invariant k == 0 ==> closed == []
      invariant k > 0 ==> Scan(sorted, k) == closed + [current.value]
      invariant merged == FinalizeAll(closed)
    {
      var x := sorted[k];
      if current.None? {
        current := Some(Open(x));
      } else {
        StepPending(closed, current.value, x);
        if Overlap(current.value.startLine, current.value.endLine, x.startLine, x.endLine) {
          current := Some(Absorb(current.value, x));
        } else {
          FinalizeAllSnoc(closed, current.value);
          merged := merged + [Finalize(current.value)];
          closed := closed + [current.value];
          current := Some(Open(x));
        }
      }
      k := k + 1;
    }
    FinalizeAllSnoc(closed, current.value);
    merged := merged + [Finalize(current.value)];
  }

  /** The step of the scan, seen from the closed groups and the pending one. */
  lemma StepPending(closed: seq<Group>, g: Group, x: Record)
    ensures Step(closed + [g], x) ==
      if Overlap(g.startLine, g.endLine, x.startLine, x.endLine) then closed + [Absorb(g, x)]
      else (closed + [g]) + [Open(x)]
  {
    assert (closed + [g])[..|closed|] == closed;
  }

  lemma FinalizeAllSnoc(gs: seq<Group>, g: Group)
    ensures FinalizeAll(gs + [g]) == FinalizeAll(gs) + [Finalize(g)]
  {
    assert (gs + [g])[..|gs|] == gs;
  }

  // ---------------------------------------------------------------- properties of the scan

  /** Every record's range is well formed. */
  ghost predicate WellFormed(s: seq<Record>) {
    forall i :: 0 <= i < |s| ==> s[i].startLine <= s[i].endLine
  }

  /** Well-formed groups, each ending before any later one starts. */
  ghost predicate Chain(gs: seq<Group>) {
    (forall i :: 0 <= i < |gs| ==> gs[i].startLine <= gs[i].endLine)
    && (forall i, j :: 0 <= i < j < |gs| ==> gs[i].endLine < gs[j].startLine)
  }

  /** Range `[a, b]` lies inside the group's range. */
  predicate Inside(a: int, b: int, g: Group) {
    g.startLine <= a && b <= g.endLine
  }

  /** A record that starts no earlier than the pending group keeps the groups a chain. */
  lemma StepChain(gs: seq<Group>, x: Record)
    requires Chain(gs) && x.startLine <= x.endLine
    requires gs != [] ==> gs[|gs| - 1].startLine <= x.startLine
    ensures Chain(Step(gs, x)) && Step(gs, x)[|Step(gs, x)| - 1].startLine <= x.startLine
  {
    if gs != [] {
      var g := gs[|gs| - 1];
      var r := Step(gs, x);
      if Overlap(g.startLine, g.endLine, x.startLine, x.endLine) {
        assert forall i :: 0 <= i < |gs| - 1 ==> r[i] == gs[i];
      } else {
        assert forall i :: 0 <= i < |gs| ==> r[i] == gs[i];
      }
    }
  }

  /** A step only widens the groups it keeps, and the new record lies inside the last group. */
  lemma StepWidens(gs: seq<Group>, x: Record)
    ensures var r := Step(gs, x);
      && (forall i :: 0 <= i < |gs| ==> r[i].startLine <= gs[i].startLine && gs[i].endLine <= r[i].endLine)
      && Inside(x.startLine, x.endLine, r[|r| - 1])
  {
  }

  /** On well-formed records in start order, the scan yields a chain. */
  lemma {:induction false} ScanChain(t: seq<Record>, k: nat)
    requires k <= |t| && SortedBy(t, Start) && WellFormed(t)
    ensures Chain(Scan(t, k))
    ensures k > 0 ==> Scan(t, k)[|Scan(t, k)| - 1].startLine <= t[k - 1].startLine
  {
    if k > 0 {
      ScanChain(t, k - 1);
      if k > 1 {
        assert Start(t[k - 2]) <= Start(t[k - 1]);
      }
      StepChain(Scan(t, k - 1), t[k - 1]);
    }
  }

  /** The record's range lies inside one of the groups. */
  ghost predicate Covered(x: Record, gs: seq<Group>) {
    exists i :: 0 <= i < |gs| && Inside(x.startLine, x.endLine, gs[i])
  }

  /** Every scanned record lies inside one of the groups. */
  lemma {:induction false} ScanCovers(t: seq<Record>, k: nat)
    requires k <= |t|
    ensures forall j :: 0 <= j < k ==> Covered(t[j], Scan(t, k))
  {
    if k > 0 {
      ScanCovers(t, k - 1);
      var gs, r := Scan(t, k - 1), Scan(t, k);
      StepWidens(gs, t[k - 1]);
      forall j | 0 <= j < k ensures Covered(t[j], r) {
        if j == k - 1 {
          assert Inside(t[j].startLine, t[j].endLine, r[|r| - 1]);
        } else {
          WidenedCovered(gs, r, t[j]);
        }
      }
    }
  }

  /** A record inside one of the groups is still inside one after they are widened. */
  lemma WidenedCovered(gs: seq<Group>, r: seq<Group>, y: Record)
    requires |gs| <= |r| && Covered(y, gs)
    requires forall i :: 0 <= i < |gs| ==> r[i].startLine <= gs[i].startLine && gs[i].endLine <= r[i].endLine
    ensures Covered(y, r)
  {
    var i :| 0 <= i < |gs| && Inside(y.startLine, y.endLine, gs[i]);
    assert Inside(y.startLine, y.endLine, r[i]);
  }

  /**
   * Where each group's run begins: the scan closes a group exactly where a
   * record fails to overlap the pending one.
   */
  function Cuts(t: seq<Record>, k: nat): (c: seq<nat>)
    requires k <= |t|
    ensures |c| == |Scan(t, k)|
    ensures k > 0 ==> c[0] == 0
    ensures forall i :: 0 <= i < |c| ==> c[i] < k
    ensures forall i, j :: 0 <= i < j < |c| ==> c[i] < c[j]
  {
    if k == 0 then []
    else
      var c := Cuts(t, k - 1);
      if |Scan(t, k)| == |c| + 1 then c + [k - 1] else c
  }

  /** The cuts `c` split `t[..k]` into the consecutive runs whose merges are the groups `gs`. */
  ghost predicate Runs(t: seq<Record>, k: nat, gs: seq<Group>, c: seq<nat>)
    requires k <= |t|
  {
    |c| == |gs| + 1 && c[|gs|] == k && forall i :: 0 <= i < |gs| ==> RunAt(t, k, gs, c, i)
  }

  /** Group `i` is the merge of the records from cut `i` up to cut `i + 1`. */
  ghost predicate RunAt(t: seq<Record>, k: nat, gs: seq<Group>, c: seq<nat>, i: nat)
    requires k <= |t| && |c| == |gs| + 1 && i < |gs|
  {
    c[i] < c[i + 1] <= k && gs[i] == Build(t, c[i], c[i + 1])
  }

  /** A step extends the last run by the next record, or starts a run of its own. */
  lemma StepRuns(t: seq<Record>, k: nat, gs: seq<Group>, c: seq<nat>)
    requires k < |t| && Runs(t, k, gs, c)
    ensures var r := Step(gs, t[k]);
      Runs(t, k + 1, r, if |r| == |gs| + 1 then c + [k + 1] else c[..|gs|] + [k + 1])
  {
    var r := Step(gs, t[k]);
    var c' := if |r| == |gs| + 1 then c + [k + 1] else c[..|gs|] + [k + 1];
    var k' := k + 1;
    forall i | 0 <= i < |r| ensures RunAt(t, k', r, c', i) {
      if i < |gs| - 1 || (i < |gs| && |r| == |gs| + 1) {
        assert RunAt(t, k, gs, c, i);
        assert c'[i] == c[i] && c'[i + 1] == c[i + 1] && r[i] == gs[i];
      } else if |r| == |gs| + 1 {
        assert c'[i] == k && c'[i + 1] == k + 1 && r[i] == Open(t[k]);
      } else {
        assert RunAt(t, k, gs, c, i);
        assert c'[i] == c[i] && c[i + 1] == k && c'[i + 1] == k + 1;
        assert r[i] == Absorb(gs[i], t[k]);
        assert Build(t, c[i], k + 1) == Absorb(Build(t, c[i], k), t[k]);
      }
    }
  }

  /**
   * The groups of the scan partition the scanned records into consecutive
   * runs: group `i` is the merge of the records from its cut to the next.
   */
  lemma {:induction false} ScanIsRuns(t: seq<Record>, k: nat)
    requires k <= |t|
    ensures Runs(t, k, Scan(t, k), Cuts(t, k) + [k])
  {
    if k > 0 {
      var gs, c0 := Scan(t, k - 1), Cuts(t, k - 1);
      var c := c0 + [k - 1];
      ScanIsRuns(t, k - 1);
      StepRuns(t, k - 1, gs, c);
      CutsStep(t, k);
      if |Scan(t, k)| != |gs| + 1 {
        assert c[..|gs|] == c0;
      }
    }
  }

  /** One more record either opens a group, and so a cut, or extends the last group. */
  lemma CutsStep(t: seq<Record>, k: nat)
    requires 0 < k <= |t|
    ensures Scan(t, k) == Step(Scan(t, k - 1), t[k - 1])
    ensures Cuts(t, k) == if |Scan(t, k)| == |Scan(t, k - 1)| + 1 then Cuts(t, k - 1) + [k - 1] else Cuts(t, k - 1)
  {
  }

  // ---------------------------------------------------------------- properties of a group

  /** A group spans from the smallest start of its run to the largest end, and both bounds come from the run. */
  lemma {:induction false} BuildSpan(t: seq<Record>, lo: nat, hi: nat)
    requires lo < hi <= |t|
    ensures forall j :: lo <= j < hi ==> Inside(t[j].startLine, t[j].endLine, Build(t, lo, hi))
    ensures exists j :: lo <= j < hi && Build(t, lo, hi).startLine == t[j].startLine
    ensures exists j :: lo <= j < hi && Build(t, lo, hi).endLine == t[j].endLine
    decreases hi
  {
    if hi > lo + 1 {
      BuildSpan(t, lo, hi - 1);
      var g := Build(t, lo, hi - 1);
      var js :| lo <= js < hi - 1 && g.startLine == t[js].startLine;
      var je :| lo <= je < hi - 1 && g.endLine == t[je].endLine;
      var js' := if t[hi - 1].startLine < g.startLine then hi - 1 else js;
      var je' := if t[hi - 1].endLine > g.endLine then hi - 1 else je;
      assert Build(t, lo, hi).startLine == t[js'].startLine;
      assert Build(t, lo, hi).endLine == t[je'].endLine;
    }
  }

  /** `t[k]` has the longest HTML of the run `t[lo..hi]`, and every earlier record of the run a strictly shorter one. */
  ghost predicate FirstLongest(t: seq<Record>, lo: nat, hi: nat, k: nat)
    requires lo <= k < hi <= |t|
  {
    (forall j :: lo <= j < hi ==> |t[j].rawHtml| <= |t[k].rawHtml|)
    && (forall j :: lo <= j < k ==> |t[j].rawHtml| < |t[k].rawHtml|)
  }

  /**
   * A group keeps the HTML of the first record with the longest HTML of its
   * run: a later snippet replaces the kept one only when strictly longer.
   */
  lemma {:induction false} BuildHtml(t: seq<Record>, lo: nat, hi: nat)
    requires lo < hi <= |t|
    ensures exists k :: lo <= k < hi && FirstLongest(t, lo, hi, k) && Build(t, lo, hi).rawHtml == t[k].rawHtml
    decreases hi
  {
    var k := KeptHtmlAt(t, lo, hi);
  }

  /** The position of the record whose HTML the group keeps. */
  lemma {:induction false} KeptHtmlAt(t: seq<Record>, lo: nat, hi: nat) returns (k: nat)
    requires lo < hi <= |t|
    ensures lo <= k < hi && FirstLongest(t, lo, hi, k) && Build(t, lo, hi).rawHtml == t[k].rawHtml
    decreases hi
  {
    if hi > lo + 1 {
      var j := KeptHtmlAt(t, lo, hi - 1);
      k := HtmlStep(t, lo, hi, j, Build(t, lo, hi - 1));
    } else {
      k := lo;
    }
  }

  /** One more record of the run: the kept HTML stays first-longest. */
  lemma HtmlStep(t: seq<Record>, lo: nat, hi: nat, k: nat, g: Group) returns (k': nat)
    requires lo <= k < hi - 1 && hi <= |t| && FirstLongest(t, lo, hi - 1, k) && g.rawHtml == t[k].rawHtml
    ensures lo <= k' < hi && FirstLongest(t, lo, hi, k') && Absorb(g, t[hi - 1]).rawHtml == t[k'].rawHtml
  {
    k' := if |t[hi - 1].rawHtml| > |g.rawHtml| then hi - 1 else k;
  }

  /** A group keeps the first title of its run and lists every title of the run, in order. */
  lemma {:induction false} BuildDescriptions(t: seq<Record>, lo: nat, hi: nat)
    requires lo < hi <= |t|
    ensures Build(t, lo, hi).title == t[lo].title
    ensures |Build(t, lo, hi).descriptions| == hi - lo
    ensures forall j :: lo <= j < hi ==> Build(t, lo, hi).descriptions[j - lo] == t[j].title
    decreases hi
  {
    if hi > lo + 1 {
      BuildDescriptions(t, lo, hi - 1);
    }
  }

  // ---------------------------------------------------------------- properties of the merge

  lemma SortedWellFormed(issues: seq<Record>)
    requires WellFormed(issues)
    ensures WellFormed(SortBy(issues, Start))
  {
    var sorted := SortBy(issues, Start);
    forall i | 0 <= i < |sorted| ensures sorted[i].startLine <= sorted[i].endLine {
      assert sorted[i] in multiset(sorted);
      assert sorted[i] in issues;
    }
  }

  /**
   * On well-formed ranges the final sort by end only reverses the groups of
   * the scan, whose ranges form a chain.
   */
  lemma MergeIsReversedScan(issues: seq<Record>)
    requires WellFormed(issues)
    ensures var sorted := SortBy(issues, Start);
      && Chain(Scan(sorted, |sorted|))
      && Merge(issues) == Reverse(FinalizeAll(Scan(sorted, |sorted|)))
  {
    var sorted := SortBy(issues, Start);
    SortBySorted(issues, Start);
    SortedWellFormed(issues);
    ScanChain(sorted, |sorted|);
    var gs := Scan(sorted, |sorted|);
    var f := FinalizeAll(gs);
    forall i, j | 0 <= i < j < |f| ensures End(f[i]) < End(f[j]) {
      assert gs[i].endLine < gs[j].startLine <= gs[j].endLine;
    }
    SortDescStrictlyIncreasing(f, End);
  }

  /** The finalised groups of a chain, last first, are well formed and pairwise apart. */
  lemma ReversedChainOrdered(gs: seq<Group>)
    requires Chain(gs)
    ensures var r := Reverse(FinalizeAll(gs));
      && WellFormedRecords(r)
      && forall i, j :: 0 <= i < j < |r| ==> r[j].endLine < r[i].startLine
  {
    var r := Reverse(FinalizeAll(gs));
    assert forall i :: 0 <= i < |r| ==>
      r[i].startLine == gs[|gs| - 1 - i].startLine && r[i].endLine == gs[|gs| - 1 - i].endLine;
  }

  /**
   * On well-formed ranges the merged records are well formed, ordered from
   * the bottom of the page up, and pairwise apart: each one ends before the
   * one listed before it starts, so no two of them overlap.
   */
  lemma MergeOrdered(issues: seq<Record>)
    requires WellFormed(issues)
    ensures var r := Merge(issues);
      && WellFormedRecords(r)
      && forall i, j :: 0 <= i < j < |r| ==> r[j].endLine < r[i].startLine && !Overlap(r[i].startLine, r[i].endLine, r[j].startLine, r[j].endLine)
  {
    MergeIsReversedScan(issues);
    var sorted := SortBy(issues, Start);
    ReversedChainOrdered(Scan(sorted, |sorted|));
  }

  predicate WellFormedRecords(r: seq<Record>) {
    forall i :: 0 <= i < |r| ==> r[i].startLine <= r[i].endLine
  }

  /** The range of `x` lies inside the range of `r`. */
  predicate Holds(r: Record, x: Record) {
    r.startLine <= x.startLine && x.endLine <= r.endLine
  }

  /** The record's range lies inside one of the merged records. */
  ghost predicate CoveredBy(x: Record, r: seq<Record>) {
    exists i :: 0 <= i < |r| && Holds(r[i], x)
  }

  lemma ReversedCovered(x: Record, gs: seq<Group>)
    requires Covered(x, gs)
    ensures CoveredBy(x, Reverse(FinalizeAll(gs)))
  {
    var i :| 0 <= i < |gs| && Inside(x.startLine, x.endLine, gs[i]);
    var r := Reverse(FinalizeAll(gs));
    var k := |gs| - 1 - i;
    assert r[k].startLine == gs[i].startLine && r[k].endLine == gs[i].endLine;
  }

  /** On well-formed ranges every input range lies inside a merged record. */
  lemma MergeCovers(issues: seq<Record>)
    requires WellFormed(issues)
    ensures forall x :: x in issues ==> CoveredBy(x, Merge(issues))
  {
    MergeIsReversedScan(issues);
    var sorted := SortBy(issues, Start);
    var gs := Scan(sorted, |sorted|);
    ScanCovers(sorted, |sorted|);
    forall x | x in issues ensures CoveredBy(x, Merge(issues)) {
      assert x in multiset(sorted);
      var j :| 0 <= j < |sorted| && sorted[j] == x;
      assert Covered(sorted[j], gs);
      ReversedCovered(x, gs);
    }
  }

  /** On well-formed ranges no input range lies inside two merged records. */
  lemma MergeCoversOnce(issues: seq<Record>)
    requires WellFormed(issues)
    ensures var r := Merge(issues);
      forall x, i, j :: x in issues && 0 <= i < j < |r| ==> !(Holds(r[i], x) && Holds(r[j], x))
  {
    MergeOrdered(issues);
  }

  /** Output record `i` is the finalised merge of the run between cuts `|r| - 1 - i` and `|r| - i`. */
  ghost predicate MergedRunAt(t: seq<Record>, r: seq<Record>, c: seq<nat>, i: nat)
    requires |c| == |r| + 1 && i < |r|
  {
    var n := |r| - 1 - i;
    c[n] < c[n + 1] <= |t| && r[i] == Finalize(Build(t, c[n], c[n + 1]))
  }

  lemma ReversedRuns(t: seq<Record>, gs: seq<Group>, c: seq<nat>)
    requires Runs(t, |t|, gs, c)
    ensures forall i :: 0 <= i < |gs| ==> MergedRunAt(t, Reverse(FinalizeAll(gs)), c, i)
  {
    var r := Reverse(FinalizeAll(gs));
    forall i | 0 <= i < |gs| ensures MergedRunAt(t, r, c, i) {
      var n := |gs| - 1 - i;
      assert RunAt(t, |t|, gs, c, n);
      assert r[i] == FinalizeAll(gs)[n] == Finalize(gs[n]);
    }
  }

  /**
   * Every merged record is the finalised merge of a run of consecutive
   * records in start order, and the runs partition the sorted input: the
   * cuts start at 0, increase, and end at its length.
   */
  lemma MergeOfRuns(issues: seq<Record>)
    requires WellFormed(issues)
    ensures var sorted := SortBy(issues, Start);
      var c := Cuts(sorted, |sorted|) + [|sorted|];
      var r := Merge(issues);
      && |c| == |r| + 1 && c[0] == 0 && c[|r|] == |issues|
      && forall i :: 0 <= i < |r| ==> MergedRunAt(sorted, r, c, i)
  {
    MergeIsReversedScan(issues);
    var sorted := SortBy(issues, Start);
    ScanIsRuns(sorted, |sorted|);
    ReversedRuns(sorted, Scan(sorted, |sorted|), Cuts(sorted, |sorted|) + [|sorted|]);
  }

  // ---------------------------------------------------------------- titles

  /** Several copies of one description become "<description> (multiple locations)", whatever order the set has. */
  lemma TitleRepeated(descs: seq<string>, u: seq<string>, d: string)
    requires |descs| > 1 && (forall i :: 0 <= i < |descs| ==> descs[i] == d) && Enumerates(u, descs)
    ensures u == [d]
    ensures CombinedTitle(u) == d + " (multiple locations)"
  {
    assert descs[0] in descs;
    assert d in u;
    forall i | 0 <= i < |u| ensures u[i] == d {
      assert u[i] in descs;
    }
    DistinctCard(u);
    assert (set t | t in u) == {d};
  }

  /** A list without repeats has as many elements as it has distinct values. */
  lemma {:induction false} DistinctCard(u: seq<string>)
    requires forall i, j :: 0 <= i < j < |u| ==> u[i] != u[j]
    ensures |set t | t in u| == |u|
  {
    if u != [] {
      var init, last := u[..|u| - 1], u[|u| - 1];
      DistinctCard(init);
      assert (set t | t in u) == (set t | t in init) + {last};
      assert last !in (set t | t in init);
    }
  }

  /**
   * Two or more distinct descriptions become "Multiple issues: " followed by
   * the first three of the enumeration joined by "; ", and, beyond three,
   * by " and <count> total", whatever order the set has.
   */
  lemma TitleMixed(descs: seq<string>, u: seq<string>, i: nat, j: nat)
    requires i < |descs| && j < |descs| && descs[i] != descs[j] && Enumerates(u, descs)
    ensures |u| >= 2
    ensures StartsWith(CombinedTitle(u), "Multiple issues: ")
    ensures |u| <= 3 ==> CombinedTitle(u) == "Multiple issues: " + Join(u, "; ")
    ensures |u| > 3 ==> EndsWith(CombinedTitle(u), " and " + IntToString(|u|) + " total")
  {
    assert descs[i] in u && descs[j] in u;
    var p :| 0 <= p < |u| && u[p] == descs[i];
    var q :| 0 <= q < |u| && u[q] == descs[j];
    assert p != q;
    CombinedTitleShape(u);
  }

  lemma CombinedTitleShape(u: seq<string>)
    requires |u| >= 2
    ensures StartsWith(CombinedTitle(u), "Multiple issues: ")
    ensures |u| <= 3 ==> CombinedTitle(u) == "Multiple issues: " + Join(u, "; ")
    ensures |u| > 3 ==> EndsWith(CombinedTitle(u), " and " + IntToString(|u|) + " total")
  {
    var head := "Multiple issues: ";
    var body := Join(u[..Min(3, |u|)], "; ");
    var tail := if |u| > 3 then " and " + IntToString(|u|) + " total" else "";
    ConcatAssoc(head, body, tail);
    PrefixOfConcat(head, body + tail);
    if |u| <= 3 {
      assert Min(3, |u|) == |u|;
      assert u[..|u|] == u;
    } else {
      SuffixOfConcat(head + body, tail);
    }
  }

  lemma ConcatAssoc(a: string, b: string, c: string)
    ensures a + b + c == a + (b + c)
  {
  }

  lemma PrefixOfConcat(a: string, b: string)
    ensures StartsWith(a + b, a)
  {
    assert (a + b)[..|a|] == a;
  }

  lemma SuffixOfConcat(a: string, b: string)
    ensures EndsWith(a + b, b)
  {
    assert (a + b)[|a|..] == b;
  }

  /**
   * The final title of a group: its one description, or, for several, the
   * combined title of their de-duplication, so the two lemmas above apply.
   */
  lemma FinalTitleCases(descs: seq<string>)
    ensures |descs| == 1 ==> FinalTitle(descs) == descs[0]
    ensures |descs| > 1 ==> FinalTitle(descs) == CombinedTitle(Dedup(descs)) && Enumerates(Dedup(descs), descs)
    ensures |descs| > 1 && (forall i :: 0 <= i < |descs| ==> descs[i] == descs[0]) ==>
              FinalTitle(descs) == descs[0] + " (multiple locations)"
  {
    DedupEnumerates(descs);
    if |descs| > 1 && (forall i :: 0 <= i < |descs| ==> descs[i] == descs[0]) {
      TitleRepeated(descs, Dedup(descs), descs[0]);
    }
  }

  // ---------------------------------------------------------------- the transforms

  /** `[it for it in issues if it.get("match_status") == "matched"]`. */
  function MatchedOnly(issues: seq<Issue>): (r: seq<Issue>)
    ensures |r| <= |issues|
    ensures forall it :: it in r <==> it in issues && it.matchStatus == Matched
  {
    if issues == [] then []
    else
      var init, last := issues[..|issues| - 1], issues[|issues| - 1];
      assert forall it :: it in issues <==> it in init || it == last;
      MatchedOnly(init) + (if last.matchStatus == Matched then [last] else [])
  }

  /** The matcher filled the lines and the HTML of a matched issue, with a well-formed range. */
  predicate HasSpan(it: Issue) {
    it.matchLineStart.Some? && it.matchLineEnd.Some? && it.matchHtml.Some?
    && it.matchLineStart.value <= it.matchLineEnd.value
  }

  /** The error Python raises when `_issues_overlap` compares a missing line with a number. */
  const NoneComparison := "TypeError: '>' not supported between instances of 'NoneType' and 'int'"

  /**
   * The record built for a matched issue, the issue's title as its only
   * description. Line numbers or HTML left `None` make the comparisons that
   * follow raise `TypeError`.
   */
  function Normalize(it: Issue): Result<Record> {
    if it.matchLineStart.None? || it.matchLineEnd.None? || it.matchHtml.None? then
      Failure(NoneComparison)
    else
      Success(Record(it.title, it.matchLineStart.value, it.matchLineEnd.value, it.matchHtml.value, Some([it.title])))
  }

  /** The records of the issues, in order, or the first failure. */
  function NormalizeAll(issues: seq<Issue>): (r: Result<seq<Record>>)
    ensures r.Failure? <==> exists i :: 0 <= i < |issues| && Normalize(issues[i]).Failure?
    ensures r.Failure? ==> r == Failure(NoneComparison)
    ensures r.Success? ==> |r.value| == |issues|
    ensures r.Success? ==> forall i :: 0 <= i < |issues| ==> Normalize(issues[i]) == Success(r.value[i])
  {
    if issues == [] then Success([])
    else
      var init := issues[..|issues| - 1];
      assert forall i :: 0 <= i < |init| ==> init[i] == issues[i];
      var records :- NormalizeAll(init);
      var x :- Normalize(issues[|issues| - 1]);
      Success(records + [x])
  }

  /** One issue with lines and HTML normalises to its own record. */
  lemma NormalizeAllSingle(it: Issue)
    requires Normalize(it).Success?
    ensures NormalizeAll([it]) == Success([Normalize(it).value])
  {
    var r := NormalizeAll([it]);
    assert [it][0] == it;
    assert r.Success?;
    assert Normalize(it) == Success(r.value[0]);
    assert r.value == [r.value[0]];
  }

  predicate IsPositive(r: Record) { r.startLine > 0 && r.endLine > 0 }
  predicate IsNegative(r: Record) { r.startLine < 0 || r.endLine < 0 }
  predicate IsZero(r: Record) { r.startLine == 0 && r.endLine == 0 }

  /** `[it for it in s if p(it)]`. */
  function Filter(s: seq<Record>, p: Record -> bool): (r: seq<Record>)
    ensures |r| <= |s|
    ensures forall x :: x in r <==> x in s && p(x)
  {
    if s == [] then []
    else
      var init, last := s[..|s| - 1], s[|s| - 1];
      assert forall x :: x in s <==> x in init || x == last;
      Filter(init, p) + (if p(last) then [last] else [])
  }

  /**
   * The list `transform_to_simple_issues_with_insertions` builds from the
   * normalised records: the merged replacements, then the insertions, then
   * the records on line 0.
   */
  function Insertions(n: seq<Record>): seq<Record> {
    Merge(Filter(n, IsPositive)) + Filter(n, IsNegative) + Filter(n, IsZero)
  }

  /** What `transform_to_simple_issues_with_insertions` returns. */
  function WithInsertions(issues: seq<Issue>): Result<seq<Record>> {
    var normalized :- NormalizeAll(MatchedOnly(issues));
    Success(Insertions(normalized))
  }

  /** `transform_to_simple_issues_with_insertions`. */
  method TransformToSimpleIssuesWithInsertions(matched: IssueSet) returns (r: Result<seq<Record>>)
    ensures r == WithInsertions(matched.issues)
  {
    var m := MatchedOnly(matched.issues);
    var normalized :- NormalizeIssues(m);
    var positive := Filter(normalized, IsPositive);
    var negative := Filter(normalized, IsNegative);
    var zero := Filter(normalized, IsZero);
    var merged := MergeOverlappingIssues(positive);
    r := Success(merged + negative + zero);
    assert merged + negative + zero == Insertions(normalized);
  }

  /** The normalisation loop of `transform_to_simple_issues_with_insertions`. */
  method NormalizeIssues(m: seq<Issue>) returns (r: Result<seq<Record>>)
    ensures r == NormalizeAll(m)
  {
    var normalized: seq<Record> := [];
    var i := 0;
    while i < |m|
      invariant 0 <= i <= |m|
      invariant NormalizeAll(m[..i]) == Success(normalized)
    {
      assert m[..i + 1][..i] == m[..i];
      var n := Normalize(m[i]);
      if n.Failure? {
        assert NormalizeAll(m).Failure?;
        return Failure(n.error);
      }
      normalized := normalized + [n.value];
      i := i + 1;
    }
    assert m[..i] == m;
    return Success(normalized);
  }

  /** The result is a failure exactly when some matched issue lacks its lines or its HTML. */
  lemma WithInsertionsFails(issues: seq<Issue>)
    ensures WithInsertions(issues).Failure? <==>
      exists it :: it in issues && it.matchStatus == Matched && Normalize(it).Failure?
  {
    var m := MatchedOnly(issues);
    if exists it :: it in issues && it.matchStatus == Matched && Normalize(it).Failure? {
      var it :| it in issues && it.matchStatus == Matched && Normalize(it).Failure?;
      assert it in m;
      var i :| 0 <= i < |m| && m[i] == it;
    }
  }

  lemma MergeLength(issues: seq<Record>)
    ensures |Merge(issues)| <= |issues|
  {
    var sorted := SortBy(issues, Start);
    assert |Merge(issues)| == |Scan(sorted, |sorted|)|;
  }

  /**
   * The list holds the merge of the records whose lines are both positive,
   * then the records with a negative line, then those with both lines zero,
   * each class in input order; a record with one line zero and the other
   * positive belongs to no class and is dropped.
   */
  lemma InsertionsParts(n: seq<Record>)
    ensures var out, merged := Insertions(n), Merge(Filter(n, IsPositive));
      && |merged| <= |out| <= |n|
      && (forall k :: 0 <= k < |merged| ==> out[k] == merged[k])
      && (forall x :: x in out[|merged|..] <==> x in n && (IsNegative(x) || IsZero(x)))
  {
    var merged := Merge(Filter(n, IsPositive));
    var neg, zero := Filter(n, IsNegative), Filter(n, IsZero);
    ConcatTail(merged, neg, zero);
    MergeLength(Filter(n, IsPositive));
    CountClasses(n);
  }

  lemma ConcatTail<T>(a: seq<T>, b: seq<T>, c: seq<T>)
    ensures (a + b + c)[|a|..] == b + c
    ensures forall k :: 0 <= k < |a| ==> (a + b + c)[k] == a[k]
  {
    assert (a + b + c)[|a|..] == b + c;
  }

  /** No record is in two classes, so the three classes hold at most the records there are. */
  lemma {:induction false} CountClasses(n: seq<Record>)
    ensures |Filter(n, IsPositive)| + |Filter(n, IsNegative)| + |Filter(n, IsZero)| <= |n|
  {
    if n != [] {
      CountClasses(n[..|n| - 1]);
    }
  }

  /** A matched issue on lines 0 to 5 is neither a replacement nor an insertion: nothing is returned for it. */
  lemma ZeroStartDropped(it: Issue)
    requires it.matchStatus == Matched && it.matchLineStart == Some(0) && it.matchLineEnd == Some(5)
    requires it.matchHtml.Some?
    ensures WithInsertions([it]) == Success([])
  {
    var x := Normalize(it).value;
    assert MatchedOnly([it]) == [it];
    NormalizeAllSingle(it);
    assert [x][..0] == [];
    assert Filter([x], IsPositive) == [] && Filter([x], IsNegative) == [] && Filter([x], IsZero) == [];
  }

  /**
   * When the matcher gave every matched issue well-formed lines and HTML,
   * their records exist, are well formed, and include the record of every
   * matched issue.
   */
  lemma NormalizedSpans(issues: seq<Issue>)
    requires forall it :: it in issues && it.matchStatus == Matched ==> HasSpan(it)
    ensures NormalizeAll(MatchedOnly(issues)).Success?
    ensures var n := NormalizeAll(MatchedOnly(issues)).value;
      && WellFormed(n)
      && forall it :: it in issues && it.matchStatus == Matched ==> Normalize(it).Success? && Normalize(it).value in n
  {
    var m := MatchedOnly(issues);
    assert forall i :: 0 <= i < |m| ==> m[i] in m;
    var n := NormalizeAll(m).value;
    forall it | it in issues && it.matchStatus == Matched ensures Normalize(it).value in n {
      assert it in m;
      var i :| 0 <= i < |m| && m[i] == it;
      assert n[i] == Normalize(it).value;
    }
  }

  /** On well-formed records the merged replacements cover every record whose lines are both positive. */
  lemma InsertionsCover(n: seq<Record>)
    requires WellFormed(n)
    ensures forall x :: x in n && IsPositive(x) ==> CoveredBy(x, Insertions(n))
    ensures var merged := Merge(Filter(n, IsPositive));
      forall i, j :: 0 <= i < j < |merged| ==> merged[j].endLine < merged[i].startLine
  {
    var pos := Filter(n, IsPositive);
    assert WellFormed(pos) by {
      forall k | 0 <= k < |pos| ensures pos[k].startLine <= pos[k].endLine {
        assert pos[k] in n;
      }
    }
    MergeCovers(pos);
    MergeOrdered(pos);
    InsertionsParts(n);
    var out := Insertions(n);
    forall x | x in n && IsPositive(x) ensures CoveredBy(x, out) {
      assert CoveredBy(x, Merge(pos));
      var k :| 0 <= k < |Merge(pos)| && Holds(Merge(pos)[k], x);
      assert out[k] == Merge(pos)[k];
    }
  }

  /**
   * When the matcher gave every matched issue well-formed lines and HTML,
   * the transform succeeds and its merged replacements, pairwise apart,
   * cover each matched issue whose lines are both positive.
   */
  lemma WithInsertionsCovers(issues: seq<Issue>)
    requires forall it :: it in issues && it.matchStatus == Matched ==> HasSpan(it)
    ensures WithInsertions(issues).Success?
    ensures forall it :: it in issues && it.matchStatus == Matched && IsPositive(Normalize(it).value) ==>
      CoveredBy(Normalize(it).value, WithInsertions(issues).value)
  {
    NormalizedSpans(issues);
    InsertionsCover(NormalizeAll(MatchedOnly(issues)).value);
  }

  // ---------------------------------------------------------------- `transform_to_simple_issues`

  /** The error the merger raises when it indexes a missing `start_line`. */
  const MissingStartLine := "KeyError: 'start_line'"

  /**
   * `transform_to_simple_issues` as written. It hands the matcher's issues
   * to the merger unchanged, but they carry `match_line_start`,
   * `match_line_end` and `match_html`, not `start_line`, `end_line` and
   * `raw_html`. Every `.get` in the merger then falls back to its default:
   * one matched issue comes back on lines 0 to 0 with empty HTML, and with
   * two or more the first `_issues_overlap` call indexes the second issue's
   * missing `start_line` and raises `KeyError`.
   */
  function TransformAsWritten(issues: seq<Issue>): Result<seq<Record>> {
    var m := MatchedOnly(issues);
    if m == [] then Success([])
    else if |m| == 1 then Success([Record(m[0].title, 0, 0, "", None)])
    else Failure(MissingStartLine)
  }

  /**
   * As written, two located issues make the transform raise, and a single
   * one loses its location; normalised first, they come back as two records
   * on their own lines.
   */
  lemma TransformAsWrittenLosesLines(a: Issue, b: Issue)
    requires a.matchStatus == Matched && a.matchLineStart == Some(3) && a.matchLineEnd == Some(4) && a.matchHtml.Some?
    requires b.matchStatus == Matched && b.matchLineStart == Some(10) && b.matchLineEnd == Some(12) && b.matchHtml.Some?
    ensures TransformAsWritten([a, b]).Failure?
    ensures TransformAsWritten([a]) == Success([Record(a.title, 0, 0, "", None)])
    ensures TransformToSimpleIssues([a, b]).Success?
    ensures TransformToSimpleIssues([a]).Success? && |TransformToSimpleIssues([a]).value| == 1
    ensures var r := TransformToSimpleIssues([a]).value[0]; r.startLine == 3 && r.endLine == 4
  {
    assert MatchedOnly([a, b]) == [a, b] by {
      assert [a, b][..1] == [a];
    }
    assert MatchedOnly([a]) == [a];
    assert NormalizeAll([a, b]).Success? by {
      assert [a, b][0] == a && [a, b][1] == b;
    }
    assert TransformAsWritten([a]) == Success([Record(a.title, 0, 0, "", None)]);
    TransformSingle(a);
  }

  /** One located issue comes back from the corrected transform as one record on its own lines. */
  lemma TransformSingle(a: Issue)
    requires a.matchStatus == Matched && HasSpan(a)
    ensures TransformToSimpleIssues([a]).Success? && |TransformToSimpleIssues([a]).value| == 1
    ensures var r := TransformToSimpleIssues([a]).value[0];
      r.startLine == a.matchLineStart.value && r.endLine == a.matchLineEnd.value
  {
    assert MatchedOnly([a]) == [a];
    var x := Normalize(a).value;
    NormalizeAllSingle(a);
    assert TransformToSimpleIssues([a]) == Success(Merge([x]));
    MergeSingle(x);
  }

  /** A single record comes out of the merge alone, on its own lines. */
  lemma MergeSingle(x: Record)
    ensures |Merge([x])| == 1 && Merge([x])[0].startLine == x.startLine && Merge([x])[0].endLine == x.endLine
  {
    var sorted := SortBy([x], Start);
    assert sorted == [x];
    assert Scan(sorted, 1) == [Open(x)];
    assert FinalizeAll([Open(x)]) == [Finalize(Open(x))];
    assert SortByDesc([Finalize(Open(x))], End) == [Finalize(Open(x))];
  }

  /**
   * `transform_to_simple_issues` as evidently intended: the matched issues
   * normalised to line-range records, as the variant with insertions does,
   * then merged.
   */
  function TransformToSimpleIssues(issues: seq<Issue>): Result<seq<Record>> {
    var n :- NormalizeAll(MatchedOnly(issues));
    Success(Merge(n))
  }

  /**
   * When the matcher gave every matched issue well-formed lines and HTML,
   * the corrected transform succeeds, every matched issue lies inside
   * exactly one returned record, and the records are pairwise apart,
   * bottom of the page first.
   */
  lemma TransformCovers(issues: seq<Issue>)
    requires forall it :: it in issues && it.matchStatus == Matched ==> HasSpan(it)
    ensures TransformToSimpleIssues(issues).Success?
    ensures var out := TransformToSimpleIssues(issues).value;
      forall it :: it in issues && it.matchStatus == Matched ==> CoveredBy(Normalize(it).value, out)
    ensures var out := TransformToSimpleIssues(issues).value;
      forall i, j :: 0 <= i < j < |out| ==> out[j].endLine < out[i].startLine
  {
    NormalizedSpans(issues);
    var n := NormalizeAll(MatchedOnly(issues)).value;
    MergeCovers(n);
    MergeOrdered(n);
  }
}
