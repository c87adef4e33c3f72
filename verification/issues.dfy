/**
 * The records passed between the pipeline stages (the dictionaries of
 * backend/app/schemas/issues.py and of the audit report).
 */
module Issues {
  import opened Wrappers

  /** A decoded JSON value; `JNull` is Python's `None`. */
  datatype Json =
    | JNull
    | JBool(b: bool)
    | JNum(n: real)
    | JStr(s: string)
    | JArr(elems: seq<Json>)
    | JObj(fields: map<string, Json>)

  /** `d.get(k)`: the value under `k`, or `None` when the key is absent. */
  function Get(d: map<string, Json>, k: string): Json {
    if k in d then d[k] else JNull
  }

  /** Python truthiness: `None`, `False`, zero and empty containers are false. */
  predicate Truthy(j: Json) {
    match j
    case JNull => false
    case JBool(b) => b
    case JNum(n) => n != 0.0
    case JStr(s) => s != ""
    case JArr(a) => a != []
    case JObj(m) => m != map[]
  }

  /** The five keys copied out of an audit item's `node` object. */
  datatype NodeInfo = NodeInfo(selector: Json, path: Json, snippet: Json, nodeLabel: Json, lhId: Json)

  datatype SourceLocation = SourceLocation(url: Json, line: Json, column: Json, original: Json)

  /** `match_status`: the only two values the pipeline ever writes. */
  datatype MatchStatus = Unmatched | Matched

  /**
   * One issue dictionary. The parser fills the first seven keys; the matcher
   * the four `match_*` keys; `description`, `rawHtml` and `lineRange` are the
   * keys read or added by the result processor (`None` when absent).
   */
  datatype Issue = Issue(
    auditId: string,
    title: string,
    node: Option<NodeInfo>,
    url: Json,
    linkText: Json,
    code: Option<string>,
    sourceLocation: Option<SourceLocation>,
    matchStatus: MatchStatus,
    matchHtml: Option<string>,
    matchLineStart: Option<int>,
    matchLineEnd: Option<int>,
    description: Option<string>,
    rawHtml: Option<string>,
    lineRange: Option<string>)

  /** `{"seo_score": ..., "issues": [...]}`, the parser's and the matcher's output. */
  datatype IssueSet = IssueSet(seoScore: Json, issues: seq<Issue>)

  /** An issue as the parser leaves it: not located yet. */
  predicate IsUnmatched(i: Issue) {
    i.matchStatus == Unmatched && i.matchHtml.None? && i.matchLineStart.None? && i.matchLineEnd.None?
  }
}
