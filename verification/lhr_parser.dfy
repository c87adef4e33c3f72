/**
 * The audit normaliser (`LHRTool.parse_lhr_json`): keeps the failing audits of
 * a Lighthouse report and flattens each into issue records, one per item, or
 * one placeholder when the audit has no items.
 */
module LhrParser {
  import opened Wrappers
  import opened Issues

  /** One audit item: a JSON object of arbitrary shape. */
  type Item = map<string, Json>

  /**
   * An audit entry. `score` is `None` when null or absent, `title` is `None`
   * when absent, and `details`/`items` are `None` when absent, null or empty.
   */
  datatype Details = Details(items: Option<seq<Item>>)
  datatype Audit = Audit(score: Option<real>, title: Option<string>, details: Option<Details>)

  /** The report: the `seoScore` value and the `audits` object in its key order. */
  datatype Report = Report(seoScore: Json, audits: seq<(string, Audit)>)

  /** Only audits with a score below 1 are reported. */
  predicate Failing(a: Audit) {
    a.score.Some? && a.score.value < 1.0
  }

  /** `(audit.get("details", {}) or {}).get("items", []) or []`. */
  function ItemsOf(a: Audit): seq<Item> {
    match a.details
    case None => []
    case Some(d) => d.items.GetOr([])
  }

  /** `audit.get("title", "")`. */
  function TitleOf(a: Audit): string {
    a.title.GetOr("")
  }

  /** The record emitted for a failing audit without items. */
  function Placeholder(auditId: string, title: string): Issue {
    Issue(auditId, title, None, JNull, JNull, None, None, Unmatched, None, None, None, None, None, None)
  }

  function NodeOf(node: map<string, Json>): NodeInfo {
    NodeInfo(Get(node, "selector"), Get(node, "path"), Get(node, "snippet"),
             Get(node, "nodeLabel"), Get(node, "lhId"))
  }

  /** The record emitted for one item of a failing audit. */
  function ItemIssue(auditId: string, title: string, it: Item): Issue {
    var node := Get(it, "node");
    var source := Get(it, "source");
    var url := Get(it, "url");
    Issue(
      auditId, title,
      if node.JObj? then Some(NodeOf(node.fields)) else None,
      if "href" in it then Get(it, "href") else JNull,
      if "text" in it then Get(it, "text") else JNull,
      if source.JStr? then Some(source.s) else None,
      if url.JStr? && ("line" in it || "column" in it || "original" in it)
      then Some(SourceLocation(url, Get(it, "line"), Get(it, "column"), Get(it, "original")))
      else None,
      Unmatched, None, None, None, None, None, None)
  }

  /** The records of the given items, in item order. */
  function ItemIssues(auditId: string, title: string, items: seq<Item>): (r: seq<Issue>)
    ensures |r| == |items|
  {
    if items == [] then []
    else ItemIssues(auditId, title, items[..|items| - 1]) + [ItemIssue(auditId, title, items[|items| - 1])]
  }

  /** The records one audit contributes. */
  function AuditIssues(auditId: string, a: Audit): seq<Issue> {
    if !Failing(a) then []
    else
      var items := ItemsOf(a);
      if items == [] then [Placeholder(auditId, TitleOf(a))]
      else ItemIssues(auditId, TitleOf(a), items)
  }

  /** The records of all audits, in audit order. */
  function ReportIssues(audits: seq<(string, Audit)>): seq<Issue> {
    if audits == [] then []
    else ReportIssues(audits[..|audits| - 1])
         + AuditIssues(audits[|audits| - 1].0, audits[|audits| - 1].1)
  }

  /** `LHRTool.parse_lhr_json`. */
  method ParseLhrJson(report: Report) returns (r: IssueSet)
    ensures r.seoScore == report.seoScore
    ensures r.issues == ReportIssues(report.audits)
    ensures forall i :: 0 <= i < |r.issues| ==> IsUnmatched(r.issues[i])
  {
    var issues: seq<Issue> := [];
    var n := 0;
    while n < |report.audits|
      invariant 0 <= n <= |report.audits|
      invariant issues == ReportIssues(report.audits[..n])
    {
      var (auditId, audit) := report.audits[n];
      ReportIssuesSnoc(report.audits, n);
      if audit.score.None? || audit.score.value >= 1.0 {
        n := n + 1;
        continue;
      }
      var title := TitleOf(audit);
      var items := ItemsOf(audit);
      if items == [] {
        issues := issues + [Placeholder(auditId, title)];
        n := n + 1;
        continue;
      }
      issues := AppendItems(issues, auditId, title, items);
      n := n + 1;
    }
    assert report.audits[..n] == report.audits;
    ReportIssuesUnmatched(report.audits);
    r := IssueSet(report.seoScore, issues);
  }

  /** The inner loop of the parser: one record per item of a failing audit, appended in item order. */
  method AppendItems(issues: seq<Issue>, auditId: string, title: string, items: seq<Item>) returns (out: seq<Issue>)
    ensures out == issues + ItemIssues(auditId, title, items)
  {
    out := issues;
    var k := 0;
    while k < |items|
      invariant 0 <= k <= |items|
      invariant out == issues + ItemIssues(auditId, title, items[..k])
    {
      assert items[..k + 1][..k] == items[..k];
      out := out + [ItemIssue(auditId, title, items[k])];
      k := k + 1;
    }
    assert items[..k] == items;
  }

  /** The records of one more audit come after those of the audits before it. */
  lemma ReportIssuesSnoc(audits: seq<(string, Audit)>, n: nat)
    requires n < |audits|
    ensures ReportIssues(audits[..n + 1]) == ReportIssues(audits[..n]) + AuditIssues(audits[n].0, audits[n].1)
  {
    assert audits[..n + 1][..n] == audits[..n];
  }

  // ---------------------------------------------------------------- properties

  /** Every record leaves the parser unmatched, without a location. */
  lemma {:induction false} ReportIssuesUnmatched(audits: seq<(string, Audit)>)
    ensures forall i :: 0 <= i < |ReportIssues(audits)| ==> IsUnmatched(ReportIssues(audits)[i])
  {
    if audits != [] {
      var init, last := audits[..|audits| - 1], audits[|audits| - 1];
      ReportIssuesUnmatched(init);
      forall j | 0 <= j < |AuditIssues(last.0, last.1)| ensures IsUnmatched(AuditIssues(last.0, last.1)[j]) {
        AuditIssueOrigin(last.0, last.1, j);
      }
    }
  }

  /** Each record of an audit is its placeholder or the record of one of its items. */
  lemma AuditIssueOrigin(auditId: string, a: Audit, j: nat)
    requires j < |AuditIssues(auditId, a)|
    ensures Failing(a)
    ensures ItemsOf(a) == [] ==> AuditIssues(auditId, a)[j] == Placeholder(auditId, TitleOf(a))
    ensures ItemsOf(a) != [] ==>
              j < |ItemsOf(a)| && AuditIssues(auditId, a)[j] == ItemIssue(auditId, TitleOf(a), ItemsOf(a)[j])
  {
    if ItemsOf(a) != [] {
      ItemIssueAt(auditId, TitleOf(a), ItemsOf(a), j);
    }
  }

  /** A passing or unscored audit contributes nothing; a failing one contributes one record per item, at least one. */
  lemma AuditIssuesCount(auditId: string, a: Audit)
    ensures |AuditIssues(auditId, a)| == if !Failing(a) then 0
                                        else if ItemsOf(a) == [] then 1
                                        else |ItemsOf(a)|
  {
  }

  /** A failing audit without items yields exactly the placeholder, which carries no descriptor. */
  lemma PlaceholderShape(auditId: string, a: Audit)
    requires Failing(a) && ItemsOf(a) == []
    ensures AuditIssues(auditId, a) == [Placeholder(auditId, TitleOf(a))]
    ensures var p := AuditIssues(auditId, a)[0];
      p.node.None? && p.url == JNull && p.linkText == JNull && p.code.None? && p.sourceLocation.None?
  {
  }

  /** The k-th record of a failing audit with items is built from its k-th item and carries the audit's id and title. */
  lemma AuditItemsInOrder(auditId: string, a: Audit, k: nat)
    requires Failing(a) && k < |ItemsOf(a)|
    ensures |AuditIssues(auditId, a)| == |ItemsOf(a)|
    ensures AuditIssues(auditId, a)[k] == ItemIssue(auditId, TitleOf(a), ItemsOf(a)[k])
    ensures AuditIssues(auditId, a)[k].auditId == auditId && AuditIssues(auditId, a)[k].title == TitleOf(a)
  {
    ItemIssueAt(auditId, TitleOf(a), ItemsOf(a), k);
  }

  lemma {:induction false} ItemIssueAt(auditId: string, title: string, items: seq<Item>, k: nat)
    requires k < |items|
    ensures ItemIssues(auditId, title, items)[k] == ItemIssue(auditId, title, items[k])
  {
    if k < |items| - 1 {
      ItemIssueAt(auditId, title, items[..|items| - 1], k);
    }
  }

  /** Which descriptors an item's record carries, and what they copy. */
  lemma ItemDescriptors(auditId: string, title: string, it: Item)
    ensures var r := ItemIssue(auditId, title, it);
      && (r.node.Some? <==> "node" in it && it["node"].JObj?)
      && (r.node.Some? ==> r.node.value == NodeInfo(Get(it["node"].fields, "selector"),
                                                    Get(it["node"].fields, "path"),
                                                    Get(it["node"].fields, "snippet"),
                                                    Get(it["node"].fields, "nodeLabel"),
                                                    Get(it["node"].fields, "lhId")))
      && ("href" in it ==> r.url == it["href"]) && ("href" !in it ==> r.url == JNull)
      && ("text" in it ==> r.linkText == it["text"]) && ("text" !in it ==> r.linkText == JNull)
      && (r.code.Some? <==> "source" in it && it["source"].JStr?)
      && (r.code.Some? ==> JStr(r.code.value) == it["source"])
      && (r.sourceLocation.Some? <==>
            "url" in it && it["url"].JStr? && ("line" in it || "column" in it || "original" in it))
      && (r.sourceLocation.Some? ==> r.sourceLocation.value.url == it["url"])
  {
  }

  /** Every record comes from a failing audit of the report and carries that audit's id and title. */
  lemma {:induction false} IssuesFromFailingAudits(audits: seq<(string, Audit)>, i: nat)
    requires i < |ReportIssues(audits)|
    ensures exists k :: 0 <= k < |audits| && Failing(audits[k].1)
                        && ReportIssues(audits)[i].auditId == audits[k].0
                        && ReportIssues(audits)[i].title == TitleOf(audits[k].1)
  {
    var init := audits[..|audits| - 1];
    var last := audits[|audits| - 1];
    if i < |ReportIssues(init)| {
      IssuesFromFailingAudits(init, i);
      var k :| 0 <= k < |init| && Failing(init[k].1)
               && ReportIssues(init)[i].auditId == init[k].0 && ReportIssues(init)[i].title == TitleOf(init[k].1);
      assert audits[k] == init[k];
    } else {
      var j := i - |ReportIssues(init)|;
      assert ReportIssues(audits)[i] == AuditIssues(last.0, last.1)[j];
      AuditIssueOrigin(last.0, last.1, j);
      assert audits[|audits| - 1] == last;
    }
  }
}
