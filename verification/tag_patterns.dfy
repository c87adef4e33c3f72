/**
 * The regular expressions of backend/app/core/matcher.py, written out as
 * "does the pattern match at position j, and where does the match end"
 * functions over the text, plus the `search` that finds the first match at
 * or after a position. Letters compare ASCII case-insensitively (`re.I`),
 * `\s` is `str.isspace` and `\w` is an ASCII word character.
 */
module TagPatterns {
  import opened Wrappers
  import opened Text

  /** `word` occurs at `j` in `s`, letters compared case-insensitively. */
  predicate OccursCiAt(s: string, word: string, j: int) {
    0 <= j && j + |word| <= |s| && forall k :: 0 <= k < |word| ==> CharEqCi(s[j + k], word[k])
  }

  /** `\b` at position `k`: exactly one side of `k` is a word character. */
  predicate Boundary(s: string, k: int)
    requires 0 <= k <= |s|
  {
    (k > 0 && IsWordChar(s[k - 1])) != (k < |s| && IsWordChar(s[k]))
  }

  /** The end of the run of `\s` characters that starts at `j` (greedy `\s*`). */
  function SkipSpaces(s: string, j: nat): (r: nat)
    requires j <= |s|
    ensures j <= r <= |s| && (r == |s| || !IsSpace(s[r]))
    decreases |s| - j
  {
    if j < |s| && IsSpace(s[j]) then SkipSpaces(s, j + 1) else j
  }

  /** `<\s*tag\b` at `j`: the end of the match. */
  function OpenAt(s: string, tag: string, j: nat): (r: Option<nat>)
    ensures r.Some? ==> j < r.value <= |s| && s[j] == '<'
  {
    if j < |s| && s[j] == '<' then
      var k := SkipSpaces(s, j + 1);
      if OccursCiAt(s, tag, k) && Boundary(s, k + |tag|) then Some(k + |tag|) else None
    else None
  }

  /** `</\s*tag\s*>` at `j`: the end of the match. */
  function CloseAt(s: string, tag: string, j: nat): (r: Option<nat>)
    ensures r.Some? ==> j + 2 < r.value <= |s| && s[j] == '<' && s[j + 1] == '/' && s[r.value - 1] == '>'
  {
    if j + 1 < |s| && s[j] == '<' && s[j + 1] == '/' then
      var k := SkipSpaces(s, j + 2);
      if OccursCiAt(s, tag, k) then
        var m := SkipSpaces(s, k + |tag|);
        if m < |s| && s[m] == '>' then Some(m + 1) else None
      else None
    else None
  }

  /** `\bk\s*=\s*['"]` at `t`: where the quote that opens the value of attribute `k` lies. */
  function QuoteAt(s: string, k: string, t: int): (b: Option<nat>)
    ensures b.Some? ==> 0 <= t && t + |k| <= b.value < |s| && (s[b.value] == '\'' || s[b.value] == '"')
  {
    if 0 <= t <= |s| && Boundary(s, t) && OccursCiAt(s, k, t) then
      var a := SkipSpaces(s, t + |k|);
      if a < |s| && s[a] == '=' then
        var b := SkipSpaces(s, a + 1);
        if b < |s| && (s[b] == '\'' || s[b] == '"') then Some(b) else None
      else None
    else None
  }

  /**
   * `\bk\s*=\s*(['"])v\1` at `t`, names and values compared
   * case-insensitively. Python's `\1` always names group 1, which the first
   * attribute's lookahead captures: that lookahead (`group1` is `None`)
   * closes the value on its own opening quote, and every later one closes
   * it on the quote group 1 holds, whichever quote opens its own value.
   */
  predicate AttrAt(s: string, k: string, v: string, t: int, group1: Option<char>) {
    match QuoteAt(s, k, t)
    case None => false
    case Some(b) =>
      OccursCiAt(s, v, b + 1) && b + 1 + |v| < |s|
      && s[b + 1 + |v|] == (if group1.Some? then group1.value else s[b])
  }

  /**
   * The lookahead `(?=[^>]*\bk\s*=\s*(['"])v\1)` from `lo`, where `hi` is the
   * first `>` at or after `lo`: the greedy `[^>]*` tries the longest run
   * first, so the lookahead settles on the last occurrence of the attribute,
   * and it never backtracks into another once it has succeeded.
   */
  function LastAttr(s: string, k: string, v: string, lo: int, hi: int, group1: Option<char>): (r: Option<int>)
    ensures r.Some? ==> lo <= r.value <= hi && AttrAt(s, k, v, r.value, group1)
    decreases hi - lo + 1
  {
    if hi < lo then None
    else if AttrAt(s, k, v, hi, group1) then Some(hi)
    else LastAttr(s, k, v, lo, hi - 1, group1)
  }

  /** An occurrence of the attribute anywhere in range makes the lookahead succeed, at that occurrence or a later one. */
  lemma {:induction false} LastAttrFinds(s: string, k: string, v: string, lo: int, hi: int, group1: Option<char>, t: int)
    requires lo <= t <= hi && AttrAt(s, k, v, t, group1)
    ensures LastAttr(s, k, v, lo, hi, group1).Some? && t <= LastAttr(s, k, v, lo, hi, group1).value
    decreases hi - lo + 1
  {
    if t < hi && !AttrAt(s, k, v, hi, group1) {
      LastAttrFinds(s, k, v, lo, hi - 1, group1, t);
    }
  }

  /** The first `>` at or after `q` (what `[^>]*>` runs up to). */
  function GtFrom(s: string, q: nat): (r: Option<nat>)
    ensures r.Some? ==> q <= r.value < |s| && s[r.value] == '>'
    decreases |s| - q
  {
    if q >= |s| then None else if s[q] == '>' then Some(q) else GtFrom(s, q + 1)
  }

  /** No `>` lies between `q` and the one `GtFrom` finds, and none at all when it finds none. */
  lemma {:induction false} GtFromFirst(s: string, q: nat, x: nat)
    requires q <= x < |s| && s[x] == '>'
    ensures GtFrom(s, q).Some? && GtFrom(s, q).value <= x
    decreases |s| - q
  {
    if s[q] != '>' {
      GtFromFirst(s, q + 1, x);
    }
  }

  /** `<tag\b[^>]*>` at `j`: the tag name right after `<`, and the match ending just after the first `>` that follows it. */
  function TagEndAt(s: string, tag: string, j: nat): (r: Option<nat>)
    ensures r.Some? ==> j < r.value <= |s| && r.value >= j + 2 + |tag| && s[j] == '<' && s[r.value - 1] == '>'
  {
    if j < |s| && s[j] == '<' && OccursCiAt(s, tag, j + 1) && Boundary(s, j + 1 + |tag|) then
      match GtFrom(s, j + 1 + |tag|)
      case None => None
      case Some(g) => Some(g + 1)
    else None
  }

  /** A tag found at `j` ends just after the first `>` that follows its name. */
  lemma TagEndsAtFirstGt(s: string, tag: string, j: nat, x: nat)
    requires TagEndAt(s, tag, j).Some? && j + 1 + |tag| <= x < |s| && s[x] == '>'
    ensures TagEndAt(s, tag, j).value - 1 <= x
  {
    GtFromFirst(s, j + 1 + |tag|, x);
  }

  /**
   * The quote group 1 holds after the first attribute's lookahead has run
   * from `q` with the first `>` at `gt`, or `None` when that lookahead fails.
   */
  function Group1(s: string, k: string, v: string, q: int, gt: int): (r: Option<char>)
    ensures r.Some? ==> r.value == '\'' || r.value == '"'
    ensures r.Some? <==> LastAttr(s, k, v, q, gt, None).Some?
    ensures r.Some? ==> AttrAt(s, k, v, LastAttr(s, k, v, q, gt, None).value, r)
  {
    match LastAttr(s, k, v, q, gt, None)
    case None => None
    case Some(t) => Some(s[QuoteAt(s, k, t).value])
  }

  /** Every attribute lookahead of the pattern succeeds from `q`, with the first `>` at `gt`. */
  predicate LookaheadsHold(s: string, attrs: seq<(string, string)>, q: int, gt: int) {
    |attrs| == 0 ||
    (var g1 := Group1(s, attrs[0].0, attrs[0].1, q, gt);
     g1.Some? && forall i :: 1 <= i < |attrs| ==> LastAttr(s, attrs[i].0, attrs[i].1, q, gt, g1).Some?)
  }

  /**
   * `<tag\b(?=…k=v…)…[^>]*>` at `j` (the pattern `_start_tag_regex` builds,
   * one lookahead per attribute in order): the tag ends at the first `>`
   * after its name, and every attribute lookahead succeeds before it.
   */
  function StartTagAt(s: string, tag: string, attrs: seq<(string, string)>, j: nat): (r: Option<nat>)
    ensures r.Some? ==> j < r.value <= |s| && r.value >= j + 2 + |tag| && s[j] == '<' && s[r.value - 1] == '>'
    ensures r.Some? ==> TagEndAt(s, tag, j) == r
    ensures attrs == [] ==> r == TagEndAt(s, tag, j)
  {
    if TagLookaheads(s, tag, attrs, j) then TagEndAt(s, tag, j) else None
  }

  /** The tag is there and every attribute lookahead succeeds before its `>`. */
  predicate TagLookaheads(s: string, tag: string, attrs: seq<(string, string)>, j: nat) {
    match TagEndAt(s, tag, j)
    case None => false
    case Some(e) => LookaheadsHold(s, attrs, j + 1 + |tag|, e - 1)
  }

  /**
   * A start tag found with attributes has each of them, the first included,
   * written before its `>` with the value closed by group 1's quote.
   */
  lemma StartTagAttrs(s: string, tag: string, attrs: seq<(string, string)>, j: nat, e: nat)
    requires StartTagAt(s, tag, attrs, j).Some? && StartTagAt(s, tag, attrs, j).value == e && attrs != []
    ensures Group1(s, attrs[0].0, attrs[0].1, j + 1 + |tag|, e - 1).Some?
    ensures forall i :: 0 <= i < |attrs| ==>
      LastAttr(s, attrs[i].0, attrs[i].1, j + 1 + |tag|, e - 1, Group1(s, attrs[0].0, attrs[0].1, j + 1 + |tag|, e - 1)).Some?
  {
    var q, gt := j + 1 + |tag|, e - 1;
    StartTagLookaheads(s, tag, attrs, j, e);
    TagLookaheadsEnd(s, tag, attrs, j, e, q, gt);
    LookaheadsGiveAll(s, attrs, q, gt);
  }

  /** A start tag found at `j` ends where its name's first `>` does, and its lookaheads hold. */
  lemma StartTagLookaheads(s: string, tag: string, attrs: seq<(string, string)>, j: nat, e: nat)
    requires StartTagAt(s, tag, attrs, j).Some? && StartTagAt(s, tag, attrs, j).value == e
    ensures TagEndAt(s, tag, j).Some? && TagEndAt(s, tag, j).value == e
    ensures TagLookaheads(s, tag, attrs, j)
  {
  }

  /** Lookaheads that hold make every attribute, the first included, close on group 1's quote. */
  lemma LookaheadsGiveAll(s: string, attrs: seq<(string, string)>, q: int, gt: int)
    requires attrs != [] && LookaheadsHold(s, attrs, q, gt)
    ensures Group1(s, attrs[0].0, attrs[0].1, q, gt).Some?
    ensures forall i :: 0 <= i < |attrs| ==>
      LastAttr(s, attrs[i].0, attrs[i].1, q, gt, Group1(s, attrs[0].0, attrs[0].1, q, gt)).Some?
  {
    var g1 := Group1(s, attrs[0].0, attrs[0].1, q, gt);
    forall i | 0 <= i < |attrs| ensures LastAttr(s, attrs[i].0, attrs[i].1, q, gt, g1).Some? {
      if i == 0 {
        FirstAttrKeepsGroup1(s, attrs[0].0, attrs[0].1, q, gt);
      }
    }
  }

  /** The first attribute's own lookahead also succeeds with group 1 already set to the quote it captured. */
  lemma FirstAttrKeepsGroup1(s: string, k: string, v: string, q: int, gt: int)
    requires Group1(s, k, v, q, gt).Some?
    ensures LastAttr(s, k, v, q, gt, Group1(s, k, v, q, gt)).Some?
  {
    var t := LastAttr(s, k, v, q, gt, None).value;
    LastAttrFinds(s, k, v, q, gt, Group1(s, k, v, q, gt), t);
  }

  /**
   * The pattern as its documentation describes it ("order-insensitive
   * attrs"): each attribute's value closed by its own opening quote.
   */
  function StartTagAtIntended(s: string, tag: string, attrs: seq<(string, string)>, j: nat): (r: Option<nat>)
    ensures r.Some? ==> TagEndAt(s, tag, j) == r
    ensures attrs == [] ==> r == TagEndAt(s, tag, j)
  {
    match TagEndAt(s, tag, j)
    case None => None
    case Some(e) =>
      if forall a :: a in attrs ==> LastAttr(s, a.0, a.1, j + 1 + |tag|, e - 1, None).Some?
      then Some(e) else None
  }

  /** The intended pattern does not depend on the order of the attributes. */
  lemma IntendedOrderInsensitive(s: string, tag: string, attrs: seq<(string, string)>, attrs': seq<(string, string)>, j: nat)
    requires forall x :: x in attrs <==> x in attrs'
    ensures StartTagAtIntended(s, tag, attrs, j) == StartTagAtIntended(s, tag, attrs', j)
  {
  }

  /** With at most one attribute, group 1 is that attribute's own quote, so the pattern is the intended one. */
  lemma OneAttrAsIntended(s: string, tag: string, attrs: seq<(string, string)>, j: nat)
    requires |attrs| <= 1
    ensures StartTagAt(s, tag, attrs, j) == StartTagAtIntended(s, tag, attrs, j)
  {
  }

  // ---------------------------------------------------------------- a worked example

  /** `<a b="x" c='y'>`: two key attributes, one in double quotes and one in single quotes. */
  const MixedQuotes: string := "<a b=\"x\" c='y'>"

  lemma GtFromSkip(s: string, q: nat)
    requires q < |s| && s[q] != '>'
    ensures GtFrom(s, q) == GtFrom(s, q + 1)
  {
  }

  /** No attribute occurrence starts where its name's first letter is missing. */
  lemma NotAttrAt(s: string, k: string, v: string, t: int, group1: Option<char>)
    requires k != [] && 0 <= t < |s| && !CharEqCi(s[t], k[0])
    ensures !AttrAt(s, k, v, t, group1)
  {
    assert !CharEqCi(s[t + 0], k[0]);
  }

  lemma LastAttrSkip(s: string, k: string, v: string, lo: int, hi: int, group1: Option<char>)
    requires lo <= hi && !AttrAt(s, k, v, hi, group1)
    ensures LastAttr(s, k, v, lo, hi, group1) == LastAttr(s, k, v, lo, hi - 1, group1)
  {
  }

  lemma MixedQuotesTagEnd()
    ensures TagEndAt(MixedQuotes, "a", 0) == Some(15)
  {
    var s := MixedQuotes;
    GtFromSkip(s, 2);
    GtFromSkip(s, 3);
    GtFromSkip(s, 4);
    GtFromSkip(s, 5);
    GtFromSkip(s, 6);
    GtFromSkip(s, 7);
    GtFromSkip(s, 8);
    GtFromSkip(s, 9);
    GtFromSkip(s, 10);
    GtFromSkip(s, 11);
    GtFromSkip(s, 12);
    GtFromSkip(s, 13);
  }

  /** The one-letter attribute `k=` at `t` of the example opens its value on a quote at `b`, with `v` behind it. */
  lemma MixedQuotesAttr(t: nat, k: string, v: string, b: nat)
    requires (t, k, v, b) == (9, "c", "y", 11) || (t, k, v, b) == (3, "b", "x", 5)
    ensures QuoteAt(MixedQuotes, k, t) == Some(b)
    ensures AttrAt(MixedQuotes, k, v, t, None)
  {
    var s := MixedQuotes;
    assert Boundary(s, t);
    assert OccursCiAt(s, k, t) by {
      assert CharEqCi(s[t + 0], k[0]);
    }
    assert SkipSpaces(s, t + 1) == t + 1;
    assert SkipSpaces(s, t + 2) == t + 2;
    assert OccursCiAt(s, v, b + 1) by {
      assert CharEqCi(s[b + 1 + 0], v[0]);
    }
  }

  /** `c='y'` is the last occurrence of `c` before the `>`; it opens on a single quote. */
  lemma MixedQuotesFirst()
    ensures LastAttr(MixedQuotes, "c", "y", 2, 14, None) == Some(9)
    ensures Group1(MixedQuotes, "c", "y", 2, 14) == Some('\'')
  {
    var s := MixedQuotes;
    NotAttrAt(s, "c", "y", 14, None);
    LastAttrSkip(s, "c", "y", 2, 14, None);
    NotAttrAt(s, "c", "y", 13, None);
    LastAttrSkip(s, "c", "y", 2, 13, None);
    NotAttrAt(s, "c", "y", 12, None);
    LastAttrSkip(s, "c", "y", 2, 12, None);
    NotAttrAt(s, "c", "y", 11, None);
    LastAttrSkip(s, "c", "y", 2, 11, None);
    NotAttrAt(s, "c", "y", 10, None);
    LastAttrSkip(s, "c", "y", 2, 10, None);
    MixedQuotesAttr(9, "c", "y", 11);
    assert s[11] == '\'';
  }

  /** `b="x"` matches on its own, but not when its value must close on a single quote. */
  lemma MixedQuotesSecond()
    ensures LastAttr(MixedQuotes, "b", "x", 2, 14, None) == Some(3)
    ensures LastAttr(MixedQuotes, "b", "x", 2, 14, Some('\'')) == None
  {
    var s := MixedQuotes;
    NotAttrAt(s, "b", "x", 14, None);
    LastAttrSkip(s, "b", "x", 2, 14, None);
    NotAttrAt(s, "b", "x", 13, None);
    LastAttrSkip(s, "b", "x", 2, 13, None);
    NotAttrAt(s, "b", "x", 12, None);
    LastAttrSkip(s, "b", "x", 2, 12, None);
    NotAttrAt(s, "b", "x", 11, None);
    LastAttrSkip(s, "b", "x", 2, 11, None);
    NotAttrAt(s, "b", "x", 10, None);
    LastAttrSkip(s, "b", "x", 2, 10, None);
    NotAttrAt(s, "b", "x", 9, None);
    LastAttrSkip(s, "b", "x", 2, 9, None);
    NotAttrAt(s, "b", "x", 8, None);
    LastAttrSkip(s, "b", "x", 2, 8, None);
    NotAttrAt(s, "b", "x", 7, None);
    LastAttrSkip(s, "b", "x", 2, 7, None);
    NotAttrAt(s, "b", "x", 6, None);
    LastAttrSkip(s, "b", "x", 2, 6, None);
    NotAttrAt(s, "b", "x", 5, None);
    LastAttrSkip(s, "b", "x", 2, 5, None);
    NotAttrAt(s, "b", "x", 4, None);
    LastAttrSkip(s, "b", "x", 2, 4, None);
    MixedQuotesAttr(3, "b", "x", 5);
    NotAttrAt(s, "b", "x", 14, Some('\''));
    LastAttrSkip(s, "b", "x", 2, 14, Some('\''));
    NotAttrAt(s, "b", "x", 13, Some('\''));
    LastAttrSkip(s, "b", "x", 2, 13, Some('\''));
    NotAttrAt(s, "b", "x", 12, Some('\''));
    LastAttrSkip(s, "b", "x", 2, 12, Some('\''));
    NotAttrAt(s, "b", "x", 11, Some('\''));
    LastAttrSkip(s, "b", "x", 2, 11, Some('\''));
    NotAttrAt(s, "b", "x", 10, Some('\''));
    LastAttrSkip(s, "b", "x", 2, 10, Some('\''));
    NotAttrAt(s, "b", "x", 9, Some('\''));
    LastAttrSkip(s, "b", "x", 2, 9, Some('\''));
    NotAttrAt(s, "b", "x", 8, Some('\''));
    LastAttrSkip(s, "b", "x", 2, 8, Some('\''));
    NotAttrAt(s, "b", "x", 7, Some('\''));
    LastAttrSkip(s, "b", "x", 2, 7, Some('\''));
    NotAttrAt(s, "b", "x", 6, Some('\''));
    LastAttrSkip(s, "b", "x", 2, 6, Some('\''));
    NotAttrAt(s, "b", "x", 5, Some('\''));
    LastAttrSkip(s, "b", "x", 2, 5, Some('\''));
    NotAttrAt(s, "b", "x", 4, Some('\''));
    LastAttrSkip(s, "b", "x", 2, 4, Some('\''));
    assert !AttrAt(s, "b", "x", 3, Some('\''));
    LastAttrSkip(s, "b", "x", 2, 3, Some('\''));
    NotAttrAt(s, "b", "x", 2, Some('\''));
    LastAttrSkip(s, "b", "x", 2, 2, Some('\''));
  }

  /**
   * With two attributes written with different quotes the pattern finds no
   * tag, while the intended pattern finds it.
   */
  lemma MixedQuotesMissed()
    ensures StartTagAt(MixedQuotes, "a", [("c", "y"), ("b", "x")], 0) == None
    ensures StartTagAtIntended(MixedQuotes, "a", [("c", "y"), ("b", "x")], 0) == Some(15)
  {
    var s, attrs := MixedQuotes, [("c", "y"), ("b", "x")];
    MixedQuotesTagEnd();
    MixedQuotesFirst();
    MixedQuotesSecond();
    TagLookaheadsAt(s, "a", attrs, 0);
    assert attrs[0] == ("c", "y") && attrs[1] == ("b", "x");
    assert !LookaheadsHold(s, attrs, 2, 14);
  }

  /** `</head\s*>` at `j`. */
  function HeadCloseAt(s: string, j: nat): (r: Option<nat>)
    ensures r.Some? ==> j + 6 < r.value <= |s| && s[j] == '<' && s[r.value - 1] == '>'
  {
    if j + 1 < |s| && s[j] == '<' && s[j + 1] == '/' && OccursCiAt(s, "head", j + 2) then
      var m := SkipSpaces(s, j + 6);
      if m < |s| && s[m] == '>' then Some(m + 1) else None
    else None
  }

  /** The patterns the locator compiles. */
  datatype Pattern =
    | OpenTag(tag: string)                                  // `<\s*tag\b`
    | CloseTag(tag: string)                                 // `</\s*tag\s*>`
    | StartTag(tag: string, attrs: seq<(string, string)>)   // `_start_tag_regex(tag, attrs)`
    | HeadClose                                             // `</head\s*>`

  /** `<head\b[^>]*>`. */
  const HeadOpen := StartTag("head", [])

  /** Where a match of `p` that starts at `j` ends, if there is one. */
  function MatchAt(s: string, p: Pattern, j: nat): (r: Option<nat>)
    ensures r.Some? ==> j < r.value <= |s|
  {
    match p
    case OpenTag(tag) => OpenAt(s, tag, j)
    case CloseTag(tag) => CloseAt(s, tag, j)
    case StartTag(tag, attrs) => StartTagAt(s, tag, attrs, j)
    case HeadClose => HeadCloseAt(s, j)
  }

  /**
   * `p.search(s, from)`: the first position at or after `from` where `p`
   * matches, with the end of that match.
   */
  function Search(s: string, p: Pattern, from: nat): (r: Option<(nat, nat)>)
    ensures r.Some? ==> from <= r.value.0 < r.value.1 <= |s| && MatchAt(s, p, r.value.0) == Some(r.value.1)
    ensures r.Some? ==> forall j: nat :: from <= j < r.value.0 ==> MatchAt(s, p, j).None?
    ensures r.None? ==> forall j: nat :: from <= j ==> MatchAt(s, p, j).None?
    decreases |s| + 1 - from
  {
    if from > |s| then None
    else match MatchAt(s, p, from)
      case Some(e) => Some((from, e))
      case None => Search(s, p, from + 1)
  }

  /** A match at `j` is found by a search from any `from` up to `j`, at `j` or earlier. */
  lemma {:induction false} SearchFindsMatch(s: string, p: Pattern, from: nat, j: nat)
    requires from <= j && MatchAt(s, p, j).Some?
    ensures Search(s, p, from).Some? && Search(s, p, from).value.0 <= j
    decreases j - from
  {
    if MatchAt(s, p, from).None? {
      SearchFindsMatch(s, p, from + 1, j);
    }
  }

  /** `j` is where `p.search(s)` finds its match: `p` matches at `j` and nowhere before. */
  predicate FirstMatchAt(s: string, p: Pattern, j: nat) {
    MatchAt(s, p, j).Some? && forall i: nat :: i < j ==> MatchAt(s, p, i).None?
  }

  /** The search from the start finds exactly the first match. */
  lemma SearchIsFirstMatch(s: string, p: Pattern, j: nat)
    ensures FirstMatchAt(s, p, j) <==> Search(s, p, 0).Some? && Search(s, p, 0).value.0 == j
  {
    if FirstMatchAt(s, p, j) {
      SearchFindsMatch(s, p, 0, j);
    }
  }

  /** The text `p.search(raw, from, to)` sees: Python clamps `to` to the length of the text. */
  function Upto(raw: string, to: int): (w: string)
    ensures |w| <= |raw| && w == raw[..|w|]
    ensures to >= 0 && to <= |raw| ==> |w| == to
  {
    if 0 <= to <= |raw| then raw[..to] else if to < 0 then [] else raw
  }

  // ---------------------------------------------------------------- bounded searches

  /** `w` is a prefix of `s`, character by character. */
  predicate Agree(w: string, s: string) {
    |w| <= |s| && forall x :: 0 <= x < |w| ==> w[x] == s[x]
  }

  /** No attribute name or value contains `>`. */
  predicate NoGt(attrs: seq<(string, string)>) {
    forall i :: 0 <= i < |attrs| ==> '>' !in attrs[i].0 && '>' !in attrs[i].1
  }

  lemma {:induction false} SkipSpacesPrefix(w: string, s: string, j: nat)
    requires Agree(w, s) && j <= |w| && SkipSpaces(w, j) < |w|
    ensures SkipSpaces(s, j) == SkipSpaces(w, j)
    decreases |w| - j
  {
    if j < |w| && IsSpace(w[j]) {
      SkipSpacesPrefix(w, s, j + 1);
    }
  }

  lemma {:induction false} SkipSpacesInPrefix(w: string, s: string, j: nat)
    requires Agree(w, s) && j <= |w| && SkipSpaces(s, j) < |w|
    ensures SkipSpaces(w, j) == SkipSpaces(s, j)
    decreases |w| - j
  {
    if IsSpace(s[j]) {
      SkipSpacesInPrefix(w, s, j + 1);
    }
  }

  /** Every character a run of `\s` passes over is blank. */
  lemma {:induction false} SkipSpacesSkipsSpaces(s: string, j: nat, i: nat)
    requires j <= |s| && j <= i < SkipSpaces(s, j)
    ensures IsSpace(s[i])
    decreases |s| - j
  {
    if i > j {
      SkipSpacesSkipsSpaces(s, j + 1, i);
    }
  }

  lemma OccursCiAgree(w: string, s: string, word: string, j: int)
    requires Agree(w, s) && j + |word| <= |w|
    ensures OccursCiAt(w, word, j) == OccursCiAt(s, word, j)
  {
    if 0 <= j {
      forall k | 0 <= k < |word| ensures CharEqCi(w[j + k], word[k]) == CharEqCi(s[j + k], word[k]) {
        assert s[j + k] == w[j + k];
      }
    }
  }

  lemma BoundaryAgree(w: string, s: string, k: int)
    requires Agree(w, s) && 0 <= k < |w|
    ensures Boundary(w, k) == Boundary(s, k)
  {
    assert s[k] == w[k];
    if k > 0 {
      assert s[k - 1] == w[k - 1];
    }
  }

  /** An attribute's opening quote lies at the same place in a prefix and in the whole text, when it lies inside the prefix. */
  lemma QuoteAtAgree(w: string, s: string, k: string, t: int)
    requires Agree(w, s)
    ensures QuoteAt(w, k, t).Some? ==> QuoteAt(s, k, t) == QuoteAt(w, k, t)
    ensures QuoteAt(s, k, t).Some? && QuoteAt(s, k, t).value < |w| ==> QuoteAt(w, k, t) == QuoteAt(s, k, t)
  {
    if QuoteAt(w, k, t).Some? {
      var a := SkipSpaces(w, t + |k|);
      BoundaryAgree(w, s, t);
      OccursCiAgree(w, s, k, t);
      SkipSpacesPrefix(w, s, t + |k|);
      SkipSpacesPrefix(w, s, a + 1);
      assert s[a] == w[a];
    }
    if QuoteAt(s, k, t).Some? && QuoteAt(s, k, t).value < |w| {
      var a := SkipSpaces(s, t + |k|);
      BoundaryAgree(w, s, t);
      OccursCiAgree(w, s, k, t);
      SkipSpacesInPrefix(w, s, t + |k|);
      SkipSpacesInPrefix(w, s, a + 1);
      assert s[a] == w[a];
    }
  }

  /** An attribute matched in a prefix is matched in the whole text, and back when it ends inside the prefix. */
  lemma AttrAtAgree(w: string, s: string, k: string, v: string, t: int, group1: Option<char>)
    requires Agree(w, s)
    ensures AttrAt(w, k, v, t, group1) ==> AttrAt(s, k, v, t, group1) && QuoteAt(s, k, t) == QuoteAt(w, k, t)
    ensures AttrAt(s, k, v, t, group1) && QuoteAt(s, k, t).value + 1 + |v| < |w| ==>
      AttrAt(w, k, v, t, group1) && QuoteAt(w, k, t) == QuoteAt(s, k, t)
  {
    QuoteAtAgree(w, s, k, t);
    if QuoteAt(w, k, t).Some? && QuoteAt(w, k, t) == QuoteAt(s, k, t) {
      var b := QuoteAt(w, k, t).value;
      if b + 1 + |v| < |w| {
        OccursCiAgree(w, s, v, b + 1);
        assert s[b] == w[b] && s[b + 1 + |v|] == w[b + 1 + |v|];
      }
    }
  }

  /** Only `>` itself equals `>` ignoring case. */
  lemma NotGtCi(c: char, d: char)
    requires CharEqCi(c, d) && d != '>'
    ensures c != '>'
  {
  }

  /** Where a word without `>` occurs, ignoring case, the text holds no `>` either. */
  lemma OccursNoGt(s: string, word: string, j: int)
    requires OccursCiAt(s, word, j) && '>' !in word
    ensures forall x :: j <= x < j + |word| ==> s[x] != '>'
  {
    forall x | j <= x < j + |word|
      ensures s[x] != '>'
    {
      assert CharEqCi(s[j + (x - j)], word[x - j]);
      assert word[x - j] in word;
      NotGtCi(s[x], word[x - j]);
    }
  }

  /**
   * With no `>` in the name or value, an attribute matched at or before a
   * `>` ends before it: the name, blanks, `=`, quotes and value cannot hold it.
   */
  lemma AttrEndsBeforeGt(s: string, k: string, v: string, t: int, group1: Option<char>, gt: int)
    requires AttrAt(s, k, v, t, group1) && t <= gt < |s| && s[gt] == '>'
    requires '>' !in k && '>' !in v && group1 != Some('>')
    ensures QuoteAt(s, k, t).value + 1 + |v| < gt
  {
    var a := SkipSpaces(s, t + |k|);
    var b := SkipSpaces(s, a + 1);
    assert QuoteAt(s, k, t) == Some(b);
    OccursNoGt(s, k, t);
    OccursNoGt(s, v, b + 1);
    if t + |k| <= gt < a {
      SkipSpacesSkipsSpaces(s, t + |k|, gt);
    } else if a < gt < b {
      SkipSpacesSkipsSpaces(s, a + 1, gt);
    }
  }

  /** At or before a `>` that the prefix holds, an attribute matches in the prefix exactly when it matches in the whole text. */
  lemma AttrAtBeforeGt(w: string, s: string, k: string, v: string, t: int, group1: Option<char>, gt: nat)
    requires Agree(w, s) && t <= gt < |w| && w[gt] == '>'
    requires '>' !in k && '>' !in v && group1 != Some('>')
    ensures AttrAt(w, k, v, t, group1) == AttrAt(s, k, v, t, group1)
    ensures AttrAt(s, k, v, t, group1) ==> QuoteAt(w, k, t) == QuoteAt(s, k, t)
  {
    AttrAtAgree(w, s, k, v, t, group1);
    if AttrAt(s, k, v, t, group1) {
      assert s[gt] == w[gt];
      AttrEndsBeforeGt(s, k, v, t, group1, gt);
    }
  }

  /** Below a `>` that the prefix holds, the lookahead settles on the same occurrence in the prefix as in the whole text. */
  lemma {:induction false} LastAttrAgree(w: string, s: string, k: string, v: string, lo: int, hi: int,
                                         group1: Option<char>, gt: nat)
    requires Agree(w, s) && hi <= gt < |w| && w[gt] == '>'
    requires '>' !in k && '>' !in v && group1 != Some('>')
    ensures LastAttr(w, k, v, lo, hi, group1) == LastAttr(s, k, v, lo, hi, group1)
    decreases hi - lo + 1
  {
    if lo <= hi {
      AttrAtBeforeGt(w, s, k, v, hi, group1, gt);
      if !AttrAt(s, k, v, hi, group1) {
        LastAttrAgree(w, s, k, v, lo, hi - 1, group1, gt);
      }
    }
  }

  /** A `>` found in a prefix is the first `>` of the whole text too. */
  lemma {:induction false} GtFromPrefix(w: string, s: string, q: nat)
    requires Agree(w, s) && GtFrom(w, q).Some?
    ensures GtFrom(s, q) == GtFrom(w, q)
    decreases |w| - q
  {
    assert s[q] == w[q];
    if w[q] != '>' {
      GtFromPrefix(w, s, q + 1);
    }
  }

  /** A tag `<tag…>` found in `raw[..to]` is the same tag of `raw`, with the same end. */
  lemma TagEndInPrefix(w: string, s: string, tag: string, j: nat)
    requires Agree(w, s) && TagEndAt(w, tag, j).Some?
    ensures TagEndAt(s, tag, j) == TagEndAt(w, tag, j)
  {
    var q := j + 1 + |tag|;
    OccursCiAgree(w, s, tag, j + 1);
    BoundaryAgree(w, s, q);
    GtFromPrefix(w, s, q);
  }

  /** Below a `>` that the prefix holds, the first attribute's lookahead captures the same quote in the prefix as in the whole text. */
  lemma Group1Agree(w: string, s: string, k: string, v: string, q: int, gt: nat)
    requires Agree(w, s) && gt < |w| && w[gt] == '>' && '>' !in k && '>' !in v
    ensures Group1(w, k, v, q, gt) == Group1(s, k, v, q, gt)
  {
    LastAttrAgree(w, s, k, v, q, gt, None, gt);
    var t := LastAttr(s, k, v, q, gt, None);
    if t.Some? {
      AttrAtBeforeGt(w, s, k, v, t.value, None, gt);
      var b := QuoteAt(s, k, t.value).value;
      assert w[b] == s[b];
    }
  }

  /** Below a `>` that the prefix holds, every lookahead succeeds in the prefix exactly when it does in the whole text. */
  lemma LookaheadsAgree(w: string, s: string, attrs: seq<(string, string)>, q: int, gt: nat)
    requires Agree(w, s) && gt < |w| && w[gt] == '>' && NoGt(attrs)
    ensures LookaheadsHold(w, attrs, q, gt) == LookaheadsHold(s, attrs, q, gt)
  {
    if attrs != [] {
      Group1Agree(w, s, attrs[0].0, attrs[0].1, q, gt);
      var g1 := Group1(s, attrs[0].0, attrs[0].1, q, gt);
      if g1.Some? {
        forall i | 1 <= i < |attrs|
          ensures LastAttr(w, attrs[i].0, attrs[i].1, q, gt, g1) == LastAttr(s, attrs[i].0, attrs[i].1, q, gt, g1)
        {
          LastAttrAgree(w, s, attrs[i].0, attrs[i].1, q, gt, g1, gt);
        }
      }
    }
  }

  /** The lookaheads of a tag are those from just after its name up to its `>`. */
  lemma TagLookaheadsAt(s: string, tag: string, attrs: seq<(string, string)>, j: nat)
    requires TagEndAt(s, tag, j).Some?
    ensures TagLookaheads(s, tag, attrs, j) == LookaheadsHold(s, attrs, j + 1 + |tag|, TagEndAt(s, tag, j).value - 1)
  {
  }

  /** A tag whose end and lookaheads agree in two texts is found in both or in neither, with the same end. */
  lemma SameTagParts(w: string, s: string, tag: string, attrs: seq<(string, string)>, j: nat)
    requires TagEndAt(w, tag, j) == TagEndAt(s, tag, j)
    requires TagLookaheads(w, tag, attrs, j) == TagLookaheads(s, tag, attrs, j)
    ensures StartTagAt(s, tag, attrs, j) == StartTagAt(w, tag, attrs, j)
  {
  }

  /** Two texts in which a tag ends at the same place and its lookaheads agree. */
  lemma SameLookaheads(w: string, s: string, tag: string, attrs: seq<(string, string)>, j: nat, e: nat, q: int, gt: int)
    requires TagEndAt(w, tag, j).Some? && TagEndAt(w, tag, j).value == e
    requires TagEndAt(s, tag, j).Some? && TagEndAt(s, tag, j).value == e
    requires q == j + 1 + |tag| && gt == e - 1
    requires LookaheadsHold(w, attrs, q, gt) == LookaheadsHold(s, attrs, q, gt)
    ensures TagLookaheads(w, tag, attrs, j) == TagLookaheads(s, tag, attrs, j)
  {
    TagLookaheadsEnd(w, tag, attrs, j, e, q, gt);
    TagLookaheadsEnd(s, tag, attrs, j, e, q, gt);
  }

  /** The lookaheads of a tag that ends at `e`, from just after its name up to its `>` at `gt`. */
  lemma TagLookaheadsEnd(s: string, tag: string, attrs: seq<(string, string)>, j: nat, e: nat, q: int, gt: int)
    requires TagEndAt(s, tag, j).Some? && TagEndAt(s, tag, j).value == e && q == j + 1 + |tag| && gt == e - 1
    ensures TagLookaheads(s, tag, attrs, j) == LookaheadsHold(s, attrs, q, gt)
  {
    TagLookaheadsAt(s, tag, attrs, j);
  }

  /**
   * When no key attribute contains `>`, a start tag found in `raw[..to]` is
   * also a start tag of `raw`, with the same end, and the reverse: every
   * lookahead ends before the tag's `>`, which the window holds.
   */
  lemma StartTagInPrefix(w: string, s: string, tag: string, attrs: seq<(string, string)>, j: nat)
    requires |w| <= |s| && w == s[..|w|] && TagEndAt(w, tag, j).Some? && NoGt(attrs)
    ensures StartTagAt(s, tag, attrs, j) == StartTagAt(w, tag, attrs, j)
  {
    assert Agree(w, s);
    TagEndInPrefix(w, s, tag, j);
    var e := TagEndAt(w, tag, j).value;
    var q, gt := j + 1 + |tag|, e - 1;
    LookaheadsAgree(w, s, attrs, q, gt);
    SameLookaheads(w, s, tag, attrs, j, e, q, gt);
    SameTagParts(w, s, tag, attrs, j);
  }
  /**
   * A start tag matched in a prefix of the text (the window `p.search(raw,
   * pos, endpos)` sees) ends at the same `>` in the whole text; when no key
   * name or value holds `>`, it is a start-tag match of the whole text too.
   */
  lemma WindowMatchInText(raw: string, w: string, tag: string, attrs: seq<(string, string)>, j: nat, e: nat)
    requires |w| <= |raw| && w == raw[..|w|]
    requires StartTagAt(w, tag, attrs, j).Some? && StartTagAt(w, tag, attrs, j).value == e
    ensures TagEndAt(raw, tag, j).Some? && TagEndAt(raw, tag, j).value == e
    ensures NoGt(attrs) ==> StartTagAt(raw, tag, attrs, j) == Some(e) && Search(raw, StartTag(tag, attrs), 0).Some?
  {
    assert Agree(w, raw);
    StartTagLookaheads(w, tag, attrs, j, e);
    TagEndInPrefix(w, raw, tag, j);
    if NoGt(attrs) {
      StartTagInPrefix(w, raw, tag, attrs, j);
      SearchFindsMatch(raw, StartTag(tag, attrs), 0, j);
    }
  }

}
