/**
 * The locator (backend/app/core/matcher.py): finds, for each issue record,
 * the slice of the raw page text it refers to and the 1-based lines of that
 * slice. The parse tree and the `cssselect` results are inputs; the regular
 * expressions are those of the TagPatterns module.
 */
module Matcher {
  import opened Wrappers
  import opened Text
  import opened Issues
  import opened LineIndex
  import opened TagPatterns

  // ---------------------------------------------------------------- the parse tree

  /** A child node: an element, or a comment or processing instruction (whose `tag` is not a string). */
  datatype Node = Element(elem: Elem) | NonElement

  /**
   * A parsed element: its tag, its attributes, the line the parser met it on,
   * its `text_content()`, and its child nodes in document order.
   */
  datatype Elem = Elem(tag: string, attrib: map<string, string>, sourceline: Option<int>,
                       textContent: string, children: seq<Node>)

  /** The page: its raw text, the root element of its parse, and the elements `cssselect` returns per selector. */
  datatype Page = Page(raw: string, root: Elem, css: string -> seq<Elem>)

  /** `[c for c in node if isinstance(c.tag, str)]`. */
  function ElementsOf(nodes: seq<Node>): (r: seq<Elem>)
    ensures |r| <= |nodes|
  {
    if nodes == [] then []
    else (if nodes[0].Element? then [nodes[0].elem] else []) + ElementsOf(nodes[1..])
  }

  /** An lxml element is truthy when it has children. */
  predicate ElemTruthy(e: Elem) {
    |e.children| > 0
  }

  /** The first element named `name` in document order (`tree.xpath("//name")[0:1]`). */
  function FirstByTag(e: Elem, name: string): (r: Option<Elem>)
    ensures r.Some? ==> r.value.tag == name
    decreases e, |e.children| + 1
  {
    if e.tag == name then Some(e) else FirstByTagBelow(e, 0, name)
  }

  /** The first element named `name` within the children of `parent` from the `i`-th on. */
  function FirstByTagBelow(parent: Elem, i: nat, name: string): (r: Option<Elem>)
    ensures r.Some? ==> r.value.tag == name
    decreases parent, |parent.children| - i
  {
    if i >= |parent.children| then None
    else
      var here := match parent.children[i]
                  case Element(c) => FirstByTag(c, name)
                  case NonElement => None;
      if here.Some? then here else FirstByTagBelow(parent, i + 1, name)
  }

  /** `_Dom.css`: a selector that is not a string makes `cssselect` raise, which yields no candidates. */
  function Css(page: Page, selector: Json): seq<Elem> {
    if selector.JStr? then page.css(selector.s) else []
  }

  // ---------------------------------------------------------------- path descent

  /** Index of the first of `cands` whose tag, lower-cased, is `tag`. */
  function FirstWithTag(cands: seq<Elem>, tag: string): (r: Option<nat>)
    ensures r.Some? ==> r.value < |cands| && LowerStr(cands[r.value].tag) == tag
    ensures r.Some? ==> forall k :: 0 <= k < r.value ==> LowerStr(cands[k].tag) != tag
    ensures r.None? ==> forall k :: 0 <= k < |cands| ==> LowerStr(cands[k].tag) != tag
  {
    if cands == [] then None
    else if LowerStr(cands[0].tag) == tag then Some(0)
    else match FirstWithTag(cands[1..], tag)
      case None => None
      case Some(k) => Some(k + 1)
  }

  /** `kids[idx: idx+3]`. */
  function Window3(kids: seq<Elem>, idx: nat): (r: seq<Elem>)
    requires idx < |kids|
    ensures 1 <= |r| <= 3 && idx + |r| <= |kids| && r == kids[idx..idx + |r|]
    ensures |r| == 3 || idx + |r| == |kids|
  {
    if idx + 3 <= |kids| then kids[idx..idx + 3] else kids[idx..]
  }

  /**
   * One step of `by_path` as written: `kids[idx]` when its tag fits, else the
   * first fitting element among `kids[idx..idx+2]`, which `if not alt`
   * rejects when it has no children.
   */
  function StepAsWritten(kids: seq<Elem>, idx: nat, tag: string): (r: Option<Elem>)
    requires idx < |kids|
    ensures r.Some? ==> LowerStr(r.value.tag) == tag
    ensures r.Some? ==> exists k :: idx <= k < idx + 3 && k < |kids| && r.value == kids[k]
    ensures LowerStr(kids[idx].tag) == tag ==> r == Some(kids[idx])
    ensures LowerStr(kids[idx].tag) != tag && r.Some? ==> ElemTruthy(r.value)
  {
    if LowerStr(kids[idx].tag) == tag then Some(kids[idx])
    else match FirstWithTag(Window3(kids, idx), tag)
      case None => None
      case Some(k) =>
        var alt := kids[idx + k];
        if !ElemTruthy(alt) then None else Some(alt)
  }

  /**
   * The step as written differs from the presence test only in dropping a
   * childless alternative: a direct match, a missing candidate and a
   * candidate with children come out the same.
   */
  lemma StepAsWrittenAgrees(kids: seq<Elem>, idx: nat, tag: string)
    requires idx < |kids|
    ensures StepAsWritten(kids, idx, tag) == match Step(kids, idx, tag)
      case None => None
      case Some(e) => if LowerStr(kids[idx].tag) == tag || ElemTruthy(e) then Some(e) else None
  {
  }

  /**
   * One step of `by_path` with the alternative tested for presence: the
   * first element among `kids[idx..idx+2]` whose tag fits, so up to two
   * parser-inserted siblings are skipped.
   */
  function Step(kids: seq<Elem>, idx: nat, tag: string): (r: Option<Elem>)
    requires idx < |kids|
    ensures r.Some? ==> LowerStr(r.value.tag) == tag
    ensures r.Some? ==> exists k :: idx <= k < idx + 3 && k < |kids| && r.value == kids[k]
                          && forall m :: idx <= m < k ==> LowerStr(kids[m].tag) != tag
    ensures r.None? <==> forall k :: idx <= k < idx + 3 && k < |kids| ==> LowerStr(kids[k].tag) != tag
    ensures LowerStr(kids[idx].tag) == tag ==> r == Some(kids[idx])
  {
    if LowerStr(kids[idx].tag) == tag then Some(kids[idx])
    else
      var w := Window3(kids, idx);
      match FirstWithTag(w, tag)
      case None =>
        assert forall k :: idx <= k < idx + 3 && k < |kids| ==> kids[k] == w[k - idx];
        None
      case Some(k) =>
        assert forall m :: idx <= m < idx + k ==> kids[m] == w[m - idx];
        Some(kids[idx + k])
  }

  /**
   * One level of the descent: the child element at position `index` (an
   * integer in text), or the fitting element among it and the next two.
   */
  function Descend(node: Elem, index: string, name: string): (r: Result<Option<Elem>>)
    ensures ParseInt(index).None? <==> r.Failure?
    ensures r.Success? && r.value.Some? ==>
      var idx := ParseInt(index).value;
      var kids := ElementsOf(node.children);
      0 <= idx < |kids| && LowerStr(r.value.value.tag) == LowerStr(name)
      && exists k :: idx <= k < idx + 3 && k < |kids| && r.value.value == kids[k]
  {
    match ParseInt(index)
    case None => Failure("ValueError: path index is not an integer")
    case Some(idx) =>
      var kids := ElementsOf(node.children);
      if idx < 0 || idx >= |kids| then Success(None)
      else Success(StepAsWritten(kids, idx, LowerStr(name)))
  }

  /** The descent from `node` along the (index, tag) pairs of `parts` from position `i`. */
  function Walk(node: Elem, parts: seq<string>, i: nat): (r: Result<Option<Elem>>)
    requires |parts| % 2 == 0 && i % 2 == 0
    decreases |parts| - i
  {
    if i >= |parts| then Success(Some(node))
    else
      EvenBelowEven(i, |parts|);
      match Descend(node, parts[i], parts[i + 1])
      case Failure(e) => Failure(e)
      case Success(None) => Success(None)
      case Success(Some(next)) => Walk(next, parts, i + 2)
  }

  /** The element `by_path` reaches for a Lighthouse `node.path` such as "1,HTML,1,BODY,0,DIV". */
  function PathTarget(root: Elem, path: Json): (r: Result<Option<Elem>>)
    ensures !Truthy(path) ==> r == Success(None)
    ensures Truthy(path) && !path.JStr? ==> r.Failure?
    ensures path.JStr? && |Split(path.s, ',')| % 2 != 0 ==> r == Success(None)
  {
    if !Truthy(path) then Success(None)
    else if !path.JStr? then Failure("AttributeError: path has no split")
    else
      var parts := Split(path.s, ',');
      if |parts| % 2 != 0 then Success(None)
      else
        match PathStart(root, parts[1])
        case None => Success(None)
        case Some(n) => Walk(n, parts, 2)
  }

  /** Where the descent starts: the root when its tag is `first`, else the first element named `first` lower-cased. */
  function PathStart(root: Elem, first: string): (r: Option<Elem>)
    ensures r.Some? ==> LowerStr(r.value.tag) == LowerStr(first) || r.value.tag == LowerStr(first)
    ensures LowerStr(root.tag) == LowerStr(first) ==> r == Some(root)
  {
    if LowerStr(root.tag) == LowerStr(first) then Some(root) else FirstByTag(root, LowerStr(first))
  }

  /** The body of the `by_path` loop: one level down, trying the next two siblings on a tag mismatch. */
  method DescendStep(node: Elem, index: string, name: string) returns (r: Result<Option<Elem>>)
    ensures r == Descend(node, index, name)
  {
    var idx := ParseInt(index);
    if idx.None? {
      return Failure("ValueError: path index is not an integer");
    }
    var tag := LowerStr(name);
    var kids := ElementsOf(node.children);
    if idx.value < 0 || idx.value >= |kids| {
      return Success(None);
    }
    var next := kids[idx.value];
    if LowerStr(next.tag) == tag {
      return Success(Some(next));
    }
    var w := Window3(kids, idx.value);
    var alt := FirstFitting(w, tag);
    StepAsWrittenByWindow(kids, idx.value, tag);
    if alt.None? || !ElemTruthy(alt.value) {
      return Success(None);
    }
    return Success(alt);
  }

  /** Past a mismatch at `idx`, a step as written picks the first fitting candidate of the window if it has children. */
  lemma StepAsWrittenByWindow(kids: seq<Elem>, idx: nat, tag: string)
    requires idx < |kids| && LowerStr(kids[idx].tag) != tag
    ensures var w := Window3(kids, idx);
      StepAsWritten(kids, idx, tag) == match FirstWithTag(w, tag)
        case None => None
        case Some(k) => if ElemTruthy(w[k]) then Some(w[k]) else None
  {
  }

  /** `for cand in kids[idx: idx+3]`, stopping at the first candidate whose tag fits. */
  method FirstFitting(w: seq<Elem>, tag: string) returns (r: Option<Elem>)
    ensures r == match FirstWithTag(w, tag) case None => None case Some(k) => Some(w[k])
  {
    var k := 0;
    while k < |w|
      invariant 0 <= k <= |w|
      invariant forall m :: 0 <= m < k ==> LowerStr(w[m].tag) != tag
    {
      if LowerStr(w[k].tag) == tag {
        FirstWithTagAt(w, tag, k);
        return Some(w[k]);
      }
      k := k + 1;
    }
    return None;
  }

  /** The first candidate whose tag fits is the one `FirstWithTag` names. */
  lemma FirstWithTagAt(w: seq<Elem>, tag: string, k: nat)
    requires k < |w| && LowerStr(w[k].tag) == tag
    requires forall m :: 0 <= m < k ==> LowerStr(w[m].tag) != tag
    ensures FirstWithTag(w, tag) == Some(k)
  {
  }

  lemma EvenBelowEven(i: nat, n: nat)
    requires i % 2 == 0 && n % 2 == 0 && i < n
    ensures i + 1 < n && (i + 2) % 2 == 0
  {
  }

  /** `_Dom.by_path`. */
  method ByPath(root: Elem, path: Json) returns (r: Result<Option<Elem>>)
    ensures r == PathTarget(root, path)
  {
    if !Truthy(path) {
      return Success(None);
    }
    if !path.JStr? {
      return Failure("AttributeError: path has no split");
    }
    var parts := Split(path.s, ',');
    if |parts| % 2 != 0 {
      return Success(None);
    }
    var node := root;
    if LowerStr(node.tag) != LowerStr(parts[1]) {
      var found := FirstByTag(root, LowerStr(parts[1]));
      if found.None? {
        return Success(None);
      }
      node := found.value;
    }
    var i := 2;
    while i < |parts|
      invariant 2 <= i <= |parts| && i % 2 == 0
      invariant Walk(node, parts, i) == PathTarget(root, path)
      decreases |parts| - i
    {
      EvenBelowEven(i, |parts|);
      var d := DescendStep(node, parts[i], parts[i + 1]);
      if d.Failure? {
        return Failure(d.error);
      }
      if d.value.None? {
        return Success(None);
      }
      node := d.value.value;
      i := i + 2;
    }
    return Success(Some(node));
  }

  /** A descent that gets to the end of the path stops on an element with the tag the path names last. */
  lemma {:induction false} WalkEndsOnLastTag(node: Elem, parts: seq<string>, i: nat, r: Result<Option<Elem>>)
    requires |parts| % 2 == 0 && i % 2 == 0 && i < |parts| && r == Walk(node, parts, i)
    requires r.Success? && r.value.Some?
    ensures LowerStr(r.value.value.tag) == LowerStr(parts[|parts| - 1])
    decreases |parts| - i
  {
    EvenBelowEven(i, |parts|);
    var next := Descend(node, parts[i], parts[i + 1]).value.value;
    if i + 2 < |parts| {
      WalkEndsOnLastTag(next, parts, i + 2, r);
    }
  }

  /** The element a path of at least one step finds carries the path's last tag, ignoring case. */
  lemma PathTargetTag(root: Elem, path: Json)
    requires PathTarget(root, path).Success? && PathTarget(root, path).value.Some?
    requires path.JStr? && |Split(path.s, ',')| >= 4
    ensures var parts := Split(path.s, ',');
      LowerStr(PathTarget(root, path).value.value.tag) == LowerStr(parts[|parts| - 1])
  {
    var parts := Split(path.s, ',');
    WalkEndsOnLastTag(PathStart(root, parts[1]).value, parts, 2, PathTarget(root, path));
  }

  /** A path that finds an element has an even number of parts and starts its descent at `PathStart`. */
  lemma PathTargetWalk(root: Elem, path: Json) returns (n: Elem)
    requires PathTarget(root, path).Success? && PathTarget(root, path).value.Some?
    requires path.JStr? && |Split(path.s, ',')| >= 4
    ensures var parts := Split(path.s, ',');
      |parts| % 2 == 0 && PathStart(root, parts[1]) == Some(n) && PathTarget(root, path) == Walk(n, parts, 2)
  {
    var parts := Split(path.s, ',');
    n := PathStart(root, parts[1]).value;
  }

  /**
   * `if not alt` rejects a fitting sibling that has no children: with
   * children `<head>` and `<img>`, the step "0,IMG" finds nothing, while
   * the presence test finds the `<img>`.
   */
  lemma ChildlessAlternativeRejected()
    ensures var head := Elem("head", map[], Some(1), "", []);
      var img := Elem("img", map[], Some(1), "", []);
      StepAsWritten([head, img], 0, "img") == None && Step([head, img], 0, "img") == Some(img)
  {
    var head := Elem("head", map[], Some(1), "", []);
    var img := Elem("img", map[], Some(1), "", []);
    assert LowerStr("head") == "head";
    assert LowerStr("img") == "img";
    assert FirstWithTag(Window3([head, img], 0), "img") == Some(1);
  }

  // ---------------------------------------------------------------- element to span

  /** The attributes the start-tag pattern looks for, in this order. */
  const KeyAttrNames: seq<string> := ["id", "class", "href", "src", "name", "content", "rel", "type", "alt", "title"]

  /** `VOID_TAGS`: elements that have no closing tag. */
  const VoidTags: set<string> := {"area", "base", "br", "col", "embed", "hr", "img", "input",
                                  "link", "meta", "param", "source", "track", "wbr"}

  /** The `(name, value)` pairs of the names in `names` that `attrib` sets, in `names` order. */
  function KeyAttrs(names: seq<string>, attrib: map<string, string>): (r: seq<(string, string)>)
    ensures forall i :: 0 <= i < |r| ==> r[i].0 in names && r[i].0 in attrib && attrib[r[i].0] == r[i].1
    ensures forall n :: n in names && n in attrib ==> (n, attrib[n]) in r
  {
    if names == [] then []
    else (if names[0] in attrib then [(names[0], attrib[names[0]])] else []) + KeyAttrs(names[1..], attrib)
  }

  /** A search function: each match found at or after `p` starts at or after `p` and ends after its start, within `n`. */
  ghost predicate Searches(n: nat, search: nat -> Option<(nat, nat)>) {
    forall p: nat :: search(p).Some? ==> p <= search(p).value.0 < search(p).value.1 <= n
  }

  /** `p.search(raw, pos)` as a function of `pos`. */
  function Searcher(raw: string, p: Pattern): (f: nat -> Option<(nat, nat)>)
    ensures Searches(|raw|, f)
    ensures forall pos: nat :: f(pos) == Search(raw, p, pos)
  {
    pos => Search(raw, p, pos)
  }

  /**
   * The depth-counted scan from `pos`: an opening match met before the next
   * closing match deepens, a closing match ends one level, and the end of
   * the closing match that ends the last level is the result; `None` when
   * no closing match is left.
   */
  function CloseScan(n: nat, open: nat -> Option<(nat, nat)>, close: nat -> Option<(nat, nat)>, pos: nat, depth: nat): (r: Option<nat>)
    requires Searches(n, open) && Searches(n, close) && pos <= n && depth >= 1
    ensures r.Some? ==> pos < r.value <= n
    decreases n - pos
  {
    match close(pos)
    case None => None
    case Some(c) =>
      var o := open(pos);
      if o.Some? && o.value.0 < c.0 then CloseScan(n, open, close, o.value.1, depth + 1)
      else if depth == 1 then Some(c.1)
      else CloseScan(n, open, close, c.1, depth - 1)
  }

  /** The loop of `map_elem_to_offsets` after the start tag ending at `from`. */
  method MatchingCloseEnd(n: nat, open: nat -> Option<(nat, nat)>, close: nat -> Option<(nat, nat)>, from: nat) returns (r: Option<nat>)
    requires Searches(n, open) && Searches(n, close) && from <= n
    ensures r == CloseScan(n, open, close, from, 1)
  {
    var pos: nat := from;
    var depth: nat := 1;
    ghost var target := CloseScan(n, open, close, from, 1);
    while true
      invariant pos <= n && depth >= 1
      invariant CloseScan(n, open, close, pos, depth) == target
      decreases n - pos
    {
      var mOpen := open(pos);
      var mClose := close(pos);
      if mClose.None? {
        return None;
      }
      var (c0, c1) := mClose.value;
      if mOpen.Some? && mOpen.value.0 < c0 {
        depth, pos := depth + 1, mOpen.value.1;
      } else if depth == 1 {
        return Some(c1);
      } else {
        depth, pos := depth - 1, c1;
      }
    }
  }

  /**
   * Where an element's span ends when its start tag ends at `mEnd`: right
   * there for a void or self-closing tag, and otherwise at the end of the
   * matching close tag, or right there again when none is left.
   */
  function SpanEnd(raw: string, tag: string, mEnd: nat): (e: nat)
    requires 2 <= mEnd <= |raw|
    ensures mEnd <= e <= |raw|
    ensures e > mEnd ==> tag !in VoidTags && raw[mEnd - 2..mEnd] != "/>"
  {
    if tag in VoidTags || raw[mEnd - 2..mEnd] == "/>" then mEnd
    else match CloseScan(|raw|, Searcher(raw, OpenTag(tag)), Searcher(raw, CloseTag(tag)), mEnd, 1)
      case None => mEnd
      case Some(c) => c
  }

  /** The snippet is a non-empty string found in `raw`. */
  predicate SnippetFound(raw: string, snippet: Json) {
    snippet.JStr? && snippet.s != "" && Find(raw, snippet.s).Some?
  }

  /**
   * The start tag `map_elem_to_offsets` settles on: the first match inside the
   * window around the element's source line, else the first match in the
   * whole text. `Failure` is the `IndexError` of a source line far outside
   * the line index.
   */
  function StartTagFound(raw: string, starts: seq<int>, tag: string, attrs: seq<(string, string)>,
                         preferLine: Option<int>): (r: Result<Option<(nat, nat)>>)
    requires starts == LineStarts(raw)
    ensures r.Failure? <==> FindWindow(|raw|, starts, preferLine).None?
    ensures r.Success? && r.value.Some? ==> TagEndAt(raw, tag, r.value.value.0) == Some(r.value.value.1)
    ensures r.Success? && r.value.Some? && NoGt(attrs) ==>
      StartTagAt(raw, tag, attrs, r.value.value.0) == Some(r.value.value.1)
    ensures r.Success? && r.value.None? ==> Search(raw, StartTag(tag, attrs), 0).None?
    ensures r.Success? && NoGt(attrs) ==> (r.value.None? <==> Search(raw, StartTag(tag, attrs), 0).None?)
    ensures preferLine.None? ==> r == Success(Search(raw, StartTag(tag, attrs), 0))
  {
    match FindWindow(|raw|, starts, preferLine)
    case None => Failure("IndexError: list index out of range")
    case Some((ws, we)) =>
      // `re` clamps a negative start position to 0; `Upto` clamps the end.
      var w := Upto(raw, we);
      assert preferLine.None? ==> w == raw[..|raw|] == raw;
      var inWindow := Search(w, StartTag(tag, attrs), if ws < 0 then 0 else ws);
      if inWindow.Some? then
        WindowMatchInText(raw, w, tag, attrs, inWindow.value.0, inWindow.value.1);
        Success(inWindow)
      else
        Success(Search(raw, StartTag(tag, attrs), 0))
  }

  /** The start-tag search of `map_elem_to_offsets`, computing `StartTagFound`. */
  method FindStartTag(raw: string, starts: seq<int>, tag: string, attrs: seq<(string, string)>,
                      preferLine: Option<int>) returns (r: Result<Option<(nat, nat)>>)
    requires starts == LineStarts(raw)
    ensures r.Failure? <==> FindWindow(|raw|, starts, preferLine).None?
    ensures r.Success? ==>
      var (ws, we) := FindWindow(|raw|, starts, preferLine).value;
      var inWindow := Search(Upto(raw, we), StartTag(tag, attrs), if ws < 0 then 0 else ws);
      r.value == if inWindow.Some? then inWindow else Search(raw, StartTag(tag, attrs), 0)
    ensures r.Success? && r.value.Some? ==> TagEndAt(raw, tag, r.value.value.0) == Some(r.value.value.1)
    ensures r.Success? && r.value.Some? && NoGt(attrs) ==>
      StartTagAt(raw, tag, attrs, r.value.value.0) == Some(r.value.value.1)
    ensures r.Success? && r.value.None? ==> Search(raw, StartTag(tag, attrs), 0).None?
    ensures r.Success? && NoGt(attrs) ==> (r.value.None? <==> Search(raw, StartTag(tag, attrs), 0).None?)
    ensures preferLine.None? ==> r == Success(Search(raw, StartTag(tag, attrs), 0))
    ensures r == StartTagFound(raw, starts, tag, attrs, preferLine)
  {
    var window := FindWindow(|raw|, starts, preferLine);
    if window.None? {
      return Failure("IndexError: list index out of range");
    }
    // `re` clamps a negative start position to 0; `Upto` clamps the end.
    var ws := if window.value.0 < 0 then 0 else window.value.0;
    var w := Upto(raw, window.value.1);
    if preferLine.None? {
      assert w == raw[..|raw|] == raw;
    }
    var m := Search(w, StartTag(tag, attrs), ws);
    if m.Some? {
      WindowMatchInText(raw, w, tag, attrs, m.value.0, m.value.1);
      return Success(m);
    }
    m := Search(raw, StartTag(tag, attrs), 0);
    return Success(m);
  }

  /** A step's outcome, when it is a span, lies inside the text and is not empty. */
  predicate SpanIn(raw: string, r: Result<Option<(nat, nat)>>) {
    r.Success? && r.value.Some? ==> r.value.value.0 < r.value.value.1 <= |raw|
  }

  /**
   * `if offsets: … return`: the outcome of one step of the chain when it
   * raised or found a span, else the outcome of the steps after it.
   */
  function OrElse(first: Result<Option<(nat, nat)>>, next: Result<Option<(nat, nat)>>): Result<Option<(nat, nat)>> {
    if first.Failure? || first.value.Some? then first else next
  }

  /** `raw.find(snippet)` under `if snippet:`: its first occurrence; a truthy snippet that is not a string raises. */
  function SnippetStep(raw: string, snippet: Json): (r: Result<Option<(nat, nat)>>)
    ensures SpanIn(raw, r)
    ensures r.Failure? <==> Truthy(snippet) && !snippet.JStr?
    ensures r.Success? ==> (r.value.Some? <==> SnippetFound(raw, snippet))
  {
    if Truthy(snippet) && !snippet.JStr? then Failure("TypeError: snippet is not a string")
    else if SnippetFound(raw, snippet) then Success(Some(SnippetSpan(raw, snippet)))
    else Success(None)
  }

  /**
   * The element's own span as `map_elem_to_offsets` computes it past the
   * snippet: from the start tag `StartTagFound` settles on to `SpanEnd`.
   */
  function ElemSpanOf(raw: string, starts: seq<int>, elem: Elem): (r: Result<Option<(nat, nat)>>)
    requires starts == LineStarts(raw)
    ensures SpanIn(raw, r)
    ensures r.Failure? <==> FindWindow(|raw|, starts, elem.sourceline).None?
  {
    var tag := LowerStr(elem.tag);
    match StartTagFound(raw, starts, tag, KeyAttrs(KeyAttrNames, elem.attrib), elem.sourceline)
    case Failure(e) => Failure(e)
    case Success(None) => Success(None)
    case Success(Some((s, mEnd))) => Success(Some((s, SpanEnd(raw, tag, mEnd))))
  }

  /** `map_elem_to_offsets(elem, prefer_snippet=snippet)`: the snippet's first occurrence, else the element's own span. */
  function ElemOffsetsOf(raw: string, starts: seq<int>, elem: Elem, snippet: Json): (r: Result<Option<(nat, nat)>>)
    requires starts == LineStarts(raw)
    ensures SpanIn(raw, r)
  {
    OrElse(SnippetStep(raw, snippet), ElemSpanOf(raw, starts, elem))
  }

  /** `_Dom.map_elem_to_offsets`. */
  method MapElemToOffsets(raw: string, starts: seq<int>, elem: Elem, snippet: Json) returns (r: Result<Option<(nat, nat)>>)
    requires starts == LineStarts(raw)
    ensures r.Success? && r.value.Some? ==> r.value.value.0 < r.value.value.1 <= |raw|
    ensures SnippetFound(raw, snippet) ==>
      var o := Find(raw, snippet.s).value;
      r == Success(Some((o, o + |snippet.s|)))
    ensures Truthy(snippet) && !snippet.JStr? ==> r.Failure?
    ensures r.Success? && r.value.Some? && !SnippetFound(raw, snippet) ==>
      var (s, e) := r.value.value;
      var tag := LowerStr(elem.tag);
      var m := TagEndAt(raw, tag, s);
      && m.Some? && 2 <= m.value && e == SpanEnd(raw, tag, m.value)
      && (NoGt(KeyAttrs(KeyAttrNames, elem.attrib)) ==> StartTagAt(raw, tag, KeyAttrs(KeyAttrNames, elem.attrib), s) == m)
    ensures r == ElemOffsetsOf(raw, starts, elem, snippet)
  {
    if Truthy(snippet) {
      if !snippet.JStr? {
        return Failure("TypeError: snippet is not a string");
      }
      var off := Find(raw, snippet.s);
      if off.Some? {
        return Success(Some((off.value, off.value + |snippet.s|)));
      }
    }
    r := ElemSpan(raw, starts, elem);
  }

  /**
   * The element's own span: from its start tag to the end of its matching
   * close tag, or to the end of the start tag when it is void,
   * self-closing or never closed.
   */
  method ElemSpan(raw: string, starts: seq<int>, elem: Elem) returns (r: Result<Option<(nat, nat)>>)
    requires starts == LineStarts(raw)
    ensures r.Failure? <==> FindWindow(|raw|, starts, elem.sourceline).None?
    ensures r.Success? && r.value.None? ==>
      Search(raw, StartTag(LowerStr(elem.tag), KeyAttrs(KeyAttrNames, elem.attrib)), 0).None?
    ensures r.Success? && NoGt(KeyAttrs(KeyAttrNames, elem.attrib)) ==>
      (r.value.None? <==> Search(raw, StartTag(LowerStr(elem.tag), KeyAttrs(KeyAttrNames, elem.attrib)), 0).None?)
    ensures r.Success? && r.value.Some? ==>
      var (s, e) := r.value.value;
      var tag := LowerStr(elem.tag);
      var m := TagEndAt(raw, tag, s);
      && s < e <= |raw|
      && m.Some? && 2 <= m.value && e == SpanEnd(raw, tag, m.value)
      && (NoGt(KeyAttrs(KeyAttrNames, elem.attrib)) ==> StartTagAt(raw, tag, KeyAttrs(KeyAttrNames, elem.attrib), s) == m)
    ensures r == ElemSpanOf(raw, starts, elem)
  {
    var tag := LowerStr(elem.tag);
    var attrs := KeyAttrs(KeyAttrNames, elem.attrib);
    var found := FindStartTag(raw, starts, tag, attrs, elem.sourceline);
    if found.Failure? {
      return Failure(found.error);
    }
    var m := found.value;
    if m.None? {
      return Success(None);
    }
    var (s, mEnd) := m.value;
    assert TagEndAt(raw, tag, s) == Some(mEnd) && 2 <= mEnd <= |raw|;
    var e := EndOfElement(raw, tag, mEnd);
    return Success(Some((s, e)));
  }

  /** The void check and the close-tag scan of `map_elem_to_offsets`, after a start tag ending at `mEnd`. */
  method EndOfElement(raw: string, tag: string, mEnd: nat) returns (e: nat)
    requires 2 <= mEnd <= |raw|
    ensures e == SpanEnd(raw, tag, mEnd)
  {
    if tag in VoidTags || raw[mEnd - 2..mEnd] == "/>" {
      return mEnd;
    }
    var close := MatchingCloseEnd(|raw|, Searcher(raw, OpenTag(tag)), Searcher(raw, CloseTag(tag)), mEnd);
    if close.None? {
      return mEnd;
    }
    return close.value;
  }

  // ---------------------------------------------------------------- the fallback chain

  /**
   * The issue marked as located at `raw[s..e]`: "matched", the slice, and the
   * 1-based lines of both ends, which are one more than the newlines before
   * each end. Every other field is kept.
   */
  function Located(issue: Issue, raw: string, s: nat, e: nat): (r: Issue)
    requires s <= e <= |raw|
    ensures r.matchStatus == Matched && r.matchHtml == Some(raw[s..e])
    ensures r.matchLineStart == Some(Count(raw[..s], '\n') + 1)
    ensures r.matchLineEnd == Some(Count(raw[..e], '\n') + 1)
    ensures 1 <= r.matchLineStart.value <= r.matchLineEnd.value <= Count(raw, '\n') + 1
    ensures r == issue.(matchStatus := Matched, matchHtml := r.matchHtml,
                        matchLineStart := r.matchLineStart, matchLineEnd := r.matchLineEnd)
  {
    var starts := LineStarts(raw);
    OffsetToLineCountsNewlines(raw, s);
    OffsetToLineCountsNewlines(raw, e);
    LineStartsShape(raw);
    var (ls, le) := SliceToLines(starts, s, e);
    issue.(matchStatus := Matched, matchHtml := Some(raw[s..e]), matchLineStart := Some(ls), matchLineEnd := Some(le))
  }

  /** `after` is `before` located at some non-empty slice of `raw`. */
  ghost predicate LocatedIn(raw: string, before: Issue, after: Issue) {
    exists s: nat, e: nat :: s < e <= |raw| && after == Located(before, raw, s, e)
  }

  /** `issue.get("node") or {}`: the descriptor, with every key absent when there is none. */
  function NodeOf(issue: Issue): NodeInfo {
    issue.node.GetOr(NodeInfo(JNull, JNull, JNull, JNull, JNull))
  }

  /**
   * Steps 1 and 2: the first `cssselect` candidate of a truthy selector, else
   * the element a truthy path leads to.
   */
  function NodeElementOf(page: Page, n: NodeInfo): (r: Result<Option<Elem>>)
    ensures r.Success? && r.value.Some? && Truthy(n.selector) && Css(page, n.selector) != [] ==>
      r.value.value in Css(page, n.selector)
    ensures r.Success? && r.value.Some? && !Truthy(n.selector) ==> Truthy(n.path)
  {
    if Truthy(n.selector) && Css(page, n.selector) != [] then Success(Some(Css(page, n.selector)[0]))
    else if Truthy(n.path) then PathTarget(page.root, n.path)
    else Success(None)
  }

  /** Steps 1 and 2, computing `NodeElementOf`. */
  method NodeElement(page: Page, n: NodeInfo) returns (r: Result<Option<Elem>>)
    ensures r == NodeElementOf(page, n)
    ensures Truthy(n.selector) && Css(page, n.selector) != [] ==> r == Success(Some(Css(page, n.selector)[0]))
    ensures (!Truthy(n.selector) || Css(page, n.selector) == []) ==>
      r == if Truthy(n.path) then PathTarget(page.root, n.path) else Success(None)
  {
    if Truthy(n.selector) {
      var cands := Css(page, n.selector);
      if cands != [] {
        return Success(Some(cands[0]));
      }
    }
    if Truthy(n.path) {
      r := ByPath(page.root, n.path);
      return;
    }
    return Success(None);
  }

  /**
   * Steps 1 to 4: the span `map_elem_to_offsets` gives the element of steps 1
   * and 2, if any; failing that, the snippet's first occurrence.
   */
  function NodeSpanOf(page: Page, starts: seq<int>, n: NodeInfo): (r: Result<Option<(nat, nat)>>)
    requires starts == LineStarts(page.raw)
    ensures SpanIn(page.raw, r)
  {
    match NodeElementOf(page, n)
    case Failure(e) => Failure(e)
    case Success(elem) =>
      var viaElem := if elem.Some? then ElemOffsetsOf(page.raw, starts, elem.value, n.snippet) else Success(None);
      OrElse(viaElem, SnippetStep(page.raw, n.snippet))
  }

  /**
   * Steps 1 to 4, computing `NodeSpanOf`: the first `cssselect` candidate of a truthy selector, else
   * the element a truthy path leads to; that element's span, which is the
   * first occurrence of the snippet when there is one; with no element, the
   * first occurrence of the snippet alone.
   */
  method NodeSpan(page: Page, starts: seq<int>, n: NodeInfo) returns (r: Result<Option<(nat, nat)>>)
    requires starts == LineStarts(page.raw)
    ensures r == NodeSpanOf(page, starts, n)
    ensures forall el ::
      (&& NodeElementOf(page, n) == Success(Some(el))
       && !SnippetFound(page.raw, n.snippet)
       && !(Truthy(n.snippet) && !n.snippet.JStr?))
      ==> r == ElemSpanOf(page.raw, starts, el)
    ensures r.Success? && r.value.Some? ==> r.value.value.0 < r.value.value.1 <= |page.raw|
    ensures SnippetFound(page.raw, n.snippet) && r.Success? ==>
      var o := Find(page.raw, n.snippet.s).value;
      r.value == Some((o, o + |n.snippet.s|))
    ensures Truthy(n.snippet) && !n.snippet.JStr? ==> r.Failure?
    ensures r.Success? && r.value.None? ==> !SnippetFound(page.raw, n.snippet)
    ensures Truthy(n.selector) && Css(page, n.selector) != [] && !SnippetFound(page.raw, n.snippet)
            && r.Success? && r.value.Some? ==>
      var c := Css(page, n.selector)[0];
      && TagEndAt(page.raw, LowerStr(c.tag), r.value.value.0).Some?
      && (NoGt(KeyAttrs(KeyAttrNames, c.attrib)) ==>
            StartTagAt(page.raw, LowerStr(c.tag), KeyAttrs(KeyAttrNames, c.attrib), r.value.value.0).Some?)
    ensures (!Truthy(n.selector) || Css(page, n.selector) == []) && !SnippetFound(page.raw, n.snippet)
            && r.Success? && r.value.Some? ==>
      && PathTarget(page.root, n.path).Success? && PathTarget(page.root, n.path).value.Some?
      && var el := PathTarget(page.root, n.path).value.value;
         && TagEndAt(page.raw, LowerStr(el.tag), r.value.value.0).Some?
         && (NoGt(KeyAttrs(KeyAttrNames, el.attrib)) ==>
               StartTagAt(page.raw, LowerStr(el.tag), KeyAttrs(KeyAttrNames, el.attrib), r.value.value.0).Some?)
    ensures !Truthy(n.selector) && !Truthy(n.path) ==>
      r == if !Truthy(n.snippet) then Success(None)
           else if !n.snippet.JStr? then Failure("TypeError: snippet is not a string")
           else if SnippetFound(page.raw, n.snippet) then
             Success(Some((Find(page.raw, n.snippet.s).value, Find(page.raw, n.snippet.s).value + |n.snippet.s|)))
           else Success(None)
  {
    NodeSpanSnippet(page, starts, n);
    NodeSpanElement(page, starts, n);
    var raw := page.raw;
    var elem :- NodeElement(page, n);
    if elem.Some? {
      var offsets :- MapElemToOffsets(raw, starts, elem.value, n.snippet);
      if offsets.Some? {
        return Success(offsets);
      }
    }
    if Truthy(n.snippet) {
      if !n.snippet.JStr? {
        return Failure("TypeError: snippet is not a string");
      }
      var off := Find(raw, n.snippet.s);
      if off.Some? {
        return Success(Some((off.value, off.value + |n.snippet.s|)));
      }
    }
    return Success(None);
  }

  /** Steps 1 to 4 and the snippet: its first occurrence wins, a non-string snippet raises, no span means no occurrence. */
  lemma NodeSpanSnippet(page: Page, starts: seq<int>, n: NodeInfo)
    requires starts == LineStarts(page.raw)
    ensures var r := NodeSpanOf(page, starts, n);
      && (SnippetFound(page.raw, n.snippet) && r.Success? ==> r.value == Some(SnippetSpan(page.raw, n.snippet)))
      && (Truthy(n.snippet) && !n.snippet.JStr? ==> r.Failure?)
      && (r.Success? && r.value.None? ==> !SnippetFound(page.raw, n.snippet))
      && (!Truthy(n.selector) && !Truthy(n.path) ==> r == SnippetStep(page.raw, n.snippet))
  {
  }

  /**
   * Steps 1 to 4 past the snippet: the span of the element steps 1 and 2
   * find, which starts on a start tag of that element's tag.
   */
  lemma NodeSpanElement(page: Page, starts: seq<int>, n: NodeInfo)
    requires starts == LineStarts(page.raw)
    ensures var r := NodeSpanOf(page, starts, n);
      forall el ::
        (&& NodeElementOf(page, n) == Success(Some(el))
         && !SnippetFound(page.raw, n.snippet)
         && !(Truthy(n.snippet) && !n.snippet.JStr?))
        ==> r == ElemSpanOf(page.raw, starts, el)
    ensures var r := NodeSpanOf(page, starts, n);
      !SnippetFound(page.raw, n.snippet) && r.Success? && r.value.Some? ==>
        && NodeElementOf(page, n).Success? && NodeElementOf(page, n).value.Some?
        && var el := NodeElementOf(page, n).value.value;
           && TagEndAt(page.raw, LowerStr(el.tag), r.value.value.0).Some?
           && (NoGt(KeyAttrs(KeyAttrNames, el.attrib)) ==>
                 StartTagAt(page.raw, LowerStr(el.tag), KeyAttrs(KeyAttrNames, el.attrib), r.value.value.0).Some?)
  {
  }

  /** `a.get("href", "")`. */
  function Href(a: Elem): string {
    if "href" in a.attrib then a.attrib["href"] else ""
  }

  /** `a.get("href", "") == link_url`: only a string URL can be equal. */
  predicate HrefIs(a: Elem, url: Json) {
    url == JStr(Href(a))
  }

  /** `norm`: strip, then every run of white space becomes one space. */
  function Norm(t: string): string {
    CollapseSpaces(Strip(t))
  }

  /** `[a for a in anchors if a.get("href", "") == link_url]`. */
  function HrefTargets(anchors: seq<Elem>, url: Json): (r: seq<Elem>)
    ensures forall a :: a in r ==> a in anchors && HrefIs(a, url)
    ensures forall i :: 0 <= i < |anchors| && HrefIs(anchors[i], url) ==> anchors[i] in r
    ensures (r == []) <==> forall i :: 0 <= i < |anchors| ==> !HrefIs(anchors[i], url)
    ensures r != [] ==> exists i: nat :: FirstHrefAt(anchors, url, i) && r[0] == anchors[i]
  {
    if anchors == [] then []
    else
      var rest := HrefTargets(anchors[1..], url);
      var r := if HrefIs(anchors[0], url) then [anchors[0]] + rest else rest;
      HrefTargetsStep(anchors, url, rest, r);
      r
  }

  /** The inductive step of `HrefTargets`'s contract, from the tail's filter to the whole. */
  lemma HrefTargetsStep(anchors: seq<Elem>, url: Json, rest: seq<Elem>, r: seq<Elem>)
    requires anchors != []
    requires forall a :: a in rest ==> a in anchors[1..] && HrefIs(a, url)
    requires forall i :: 0 <= i < |anchors| - 1 && HrefIs(anchors[1..][i], url) ==> anchors[1..][i] in rest
    requires (rest == []) <==> forall i :: 0 <= i < |anchors| - 1 ==> !HrefIs(anchors[1..][i], url)
    requires rest != [] ==> exists i: nat :: FirstHrefAt(anchors[1..], url, i) && rest[0] == anchors[1..][i]
    requires r == if HrefIs(anchors[0], url) then [anchors[0]] + rest else rest
    ensures forall a :: a in r ==> a in anchors && HrefIs(a, url)
    ensures forall i :: 0 <= i < |anchors| && HrefIs(anchors[i], url) ==> anchors[i] in r
    ensures (r == []) <==> forall i :: 0 <= i < |anchors| ==> !HrefIs(anchors[i], url)
    ensures r != [] ==> exists i: nat :: FirstHrefAt(anchors, url, i) && r[0] == anchors[i]
  {
    assert forall a :: a in anchors[1..] ==> a in anchors;
    assert forall i :: 1 <= i < |anchors| ==> anchors[i] == anchors[1..][i - 1];
    if HrefIs(anchors[0], url) {
      assert FirstHrefAt(anchors, url, 0);
    } else if rest != [] {
      var i: nat :| FirstHrefAt(anchors[1..], url, i) && rest[0] == anchors[1..][i];
      assert FirstHrefAt(anchors, url, i + 1);
    }
  }

  /** `anchors[i]` is the first anchor with the URL. */
  predicate FirstHrefAt(anchors: seq<Elem>, url: Json, i: nat) {
    i < |anchors| && HrefIs(anchors[i], url) && forall k :: 0 <= k < i ==> !HrefIs(anchors[k], url)
  }

  /** The comprehension keeps document order: filtering a concatenation concatenates the filtered parts. */
  lemma {:induction false} HrefTargetsAppend(a: seq<Elem>, b: seq<Elem>, url: Json)
    ensures HrefTargets(a + b, url) == HrefTargets(a, url) + HrefTargets(b, url)
  {
    if a == [] {
      assert a + b == b;
    } else {
      var head := if HrefIs(a[0], url) then [a[0]] else [];
      assert (a + b)[0] == a[0] && (a + b)[1..] == a[1..] + b;
      assert HrefTargets(a + b, url) == head + HrefTargets(a[1..] + b, url);
      HrefTargetsAppend(a[1..], b, url);
      ConcatAssoc(head, HrefTargets(a[1..], url), HrefTargets(b, url));
    }
  }

  /** `not link_text or norm(a.text_content()) == norm(link_text)`, for a link text `norm` accepts. */
  predicate TextFits(a: Elem, text: Json) {
    !Truthy(text) || (text.JStr? && Norm(a.textContent) == Norm(text.s))
  }

  /**
   * The anchors with the URL whose text fits, in document order: what the
   * link-text comprehension returns when `norm` does not raise.
   */
  function LinkFilter(anchors: seq<Elem>, url: Json, text: Json): (r: seq<Elem>)
    ensures forall a :: a in r ==> a in anchors && HrefIs(a, url) && TextFits(a, text)
    ensures forall i :: 0 <= i < |anchors| && HrefIs(anchors[i], url) && TextFits(anchors[i], text) ==> anchors[i] in r
    ensures r != [] ==> exists i: nat :: FirstLinkAt(anchors, url, text, i) && r[0] == anchors[i]
  {
    if anchors == [] then []
    else
      var rest := LinkFilter(anchors[1..], url, text);
      var r := if HrefIs(anchors[0], url) && TextFits(anchors[0], text) then [anchors[0]] + rest else rest;
      LinkFilterStep(anchors, url, text, rest, r);
      r
  }

  /** The inductive step of `LinkFilter`'s contract, from the tail's filter to the whole. */
  lemma LinkFilterStep(anchors: seq<Elem>, url: Json, text: Json, rest: seq<Elem>, r: seq<Elem>)
    requires anchors != []
    requires forall a :: a in rest ==> a in anchors[1..] && HrefIs(a, url) && TextFits(a, text)
    requires forall i :: 0 <= i < |anchors| - 1 && HrefIs(anchors[1..][i], url) && TextFits(anchors[1..][i], text) ==>
               anchors[1..][i] in rest
    requires rest != [] ==> exists i: nat :: FirstLinkAt(anchors[1..], url, text, i) && rest[0] == anchors[1..][i]
    requires r == if HrefIs(anchors[0], url) && TextFits(anchors[0], text) then [anchors[0]] + rest else rest
    ensures forall a :: a in r ==> a in anchors && HrefIs(a, url) && TextFits(a, text)
    ensures forall i :: 0 <= i < |anchors| && HrefIs(anchors[i], url) && TextFits(anchors[i], text) ==> anchors[i] in r
    ensures r != [] ==> exists i: nat :: FirstLinkAt(anchors, url, text, i) && r[0] == anchors[i]
  {
    assert forall a :: a in anchors[1..] ==> a in anchors;
    assert forall i :: 1 <= i < |anchors| ==> anchors[i] == anchors[1..][i - 1];
    if HrefIs(anchors[0], url) && TextFits(anchors[0], text) {
      assert FirstLinkAt(anchors, url, text, 0);
    } else if rest != [] {
      var i: nat :| FirstLinkAt(anchors[1..], url, text, i) && rest[0] == anchors[1..][i];
      assert FirstLinkAt(anchors, url, text, i + 1);
    }
  }

  /** The link-text comprehension keeps document order too. */
  lemma {:induction false} LinkFilterAppend(a: seq<Elem>, b: seq<Elem>, url: Json, text: Json)
    ensures LinkFilter(a + b, url, text) == LinkFilter(a, url, text) + LinkFilter(b, url, text)
  {
    if a == [] {
      assert a + b == b;
    } else {
      var head := if HrefIs(a[0], url) && TextFits(a[0], text) then [a[0]] else [];
      LinkFilterFront(a, b, url, text, head);
      LinkFilterAppend(a[1..], b, url, text);
      ConcatAssoc(head, LinkFilter(a[1..], url, text), LinkFilter(b, url, text));
    }
  }

  /** One step of `LinkFilterAppend`: the first anchor of `a` decides alone. */
  lemma LinkFilterFront(a: seq<Elem>, b: seq<Elem>, url: Json, text: Json, head: seq<Elem>)
    requires a != [] && head == if HrefIs(a[0], url) && TextFits(a[0], text) then [a[0]] else []
    ensures LinkFilter(a + b, url, text) == head + LinkFilter(a[1..] + b, url, text)
    ensures LinkFilter(a, url, text) == head + LinkFilter(a[1..], url, text)
  {
    assert (a + b)[0] == a[0] && (a + b)[1..] == a[1..] + b;
  }

  /** Concatenation regroups freely. */
  lemma ConcatAssoc(x: seq<Elem>, y: seq<Elem>, z: seq<Elem>)
    ensures x + (y + z) == x + y + z
  {
  }

  /** `anchors[i]` is the first anchor with the URL and the link text. */
  predicate FirstLinkAt(anchors: seq<Elem>, url: Json, text: Json, i: nat) {
    && i < |anchors| && HrefIs(anchors[i], url) && TextFits(anchors[i], text)
    && forall k :: 0 <= k < i ==> !(HrefIs(anchors[k], url) && TextFits(anchors[k], text))
  }

  /**
   * The anchors with the URL and, when the link text is truthy, with the same
   * normalised visible text. `norm` of a truthy link text that is not a string
   * raises, as soon as one anchor has the URL.
   */
  function LinkTargets(anchors: seq<Elem>, url: Json, text: Json): (r: Result<seq<Elem>>)
    ensures r.Failure? <==> Truthy(text) && !text.JStr? && exists i :: 0 <= i < |anchors| && HrefIs(anchors[i], url)
    ensures r.Success? ==> forall a :: a in r.value ==> a in anchors && HrefIs(a, url)
    ensures r.Success? && Truthy(text) ==> forall a :: a in r.value ==> Norm(a.textContent) == Norm(text.s)
    ensures r.Success? ==> r.value == LinkFilter(anchors, url, text)
    ensures !Truthy(text) ==> r == Success(HrefTargets(anchors, url))
  {
    if anchors == [] then Success([])
    else
      var a := anchors[0];
      var rest := LinkTargets(anchors[1..], url, text);
      var r := LinkStep(a, url, text, rest);
      LinkStepFails(anchors, url, text, rest);
      LinkStepFilter(anchors, url, text, rest);
      LinkStepHref(anchors, url, text, rest);
      r
  }

  /** One anchor of the link-text comprehension, in front of the outcome for the anchors after it. */
  function LinkStep(a: Elem, url: Json, text: Json, rest: Result<seq<Elem>>): Result<seq<Elem>>
    requires !Truthy(text) ==> rest.Success?
  {
    if !HrefIs(a, url) then rest
    else if !Truthy(text) then Success([a] + rest.value)
    else if !text.JStr? then Failure("AttributeError: link text has no strip")
    else if rest.Failure? then rest
    else Success((if Norm(a.textContent) == Norm(text.s) then [a] else []) + rest.value)
  }

  /** `LinkTargets` raises exactly when some anchor has the URL and the link text is truthy but not a string. */
  lemma LinkStepFails(anchors: seq<Elem>, url: Json, text: Json, rest: Result<seq<Elem>>)
    requires anchors != [] && (!Truthy(text) ==> rest.Success?)
    requires rest.Failure? <==> Truthy(text) && !text.JStr? && exists i :: 0 <= i < |anchors| - 1 && HrefIs(anchors[1..][i], url)
    ensures LinkStep(anchors[0], url, text, rest).Failure? <==>
      Truthy(text) && !text.JStr? && exists i :: 0 <= i < |anchors| && HrefIs(anchors[i], url)
  {
    assert forall i :: 1 <= i < |anchors| ==> anchors[i] == anchors[1..][i - 1];
  }

  /** Without an exception, `LinkTargets` is `LinkFilter`. */
  lemma LinkStepFilter(anchors: seq<Elem>, url: Json, text: Json, rest: Result<seq<Elem>>)
    requires anchors != [] && (!Truthy(text) ==> rest.Success?)
    requires rest.Success? ==> rest.value == LinkFilter(anchors[1..], url, text)
    ensures LinkStep(anchors[0], url, text, rest).Success? ==>
      LinkStep(anchors[0], url, text, rest).value == LinkFilter(anchors, url, text)
  {
  }

  /** With a falsy link text, `LinkTargets` is the URL comprehension. */
  lemma LinkStepHref(anchors: seq<Elem>, url: Json, text: Json, rest: Result<seq<Elem>>)
    requires anchors != [] && (!Truthy(text) ==> rest == Success(HrefTargets(anchors[1..], url)))
    ensures !Truthy(text) ==> LinkStep(anchors[0], url, text, rest) == Success(HrefTargets(anchors, url))
  {
    var tail := HrefTargets(anchors[1..], url);
    assert HrefTargets(anchors, url) == if HrefIs(anchors[0], url) then [anchors[0]] + tail else tail;
  }

  /** The anchors `cssselect("a[href]")` returns. */
  const AnchorSelector := "a[href]"

  /**
   * Step 5: with a truthy URL, the span `map_elem_to_offsets` gives the first
   * anchor with that URL and the link text, else the first anchor with that
   * URL.
   */
  function LinkSpanOf(page: Page, starts: seq<int>, url: Json, text: Json): (r: Result<Option<(nat, nat)>>)
    requires starts == LineStarts(page.raw)
    ensures SpanIn(page.raw, r)
  {
    if !Truthy(url) then Success(None)
    else
      match LinkCandidates(page.css(AnchorSelector), url, text)
      case Failure(e) => Failure(e)
      case Success(targets) =>
        if targets == [] then Success(None)
        else ElemOffsetsOf(page.raw, starts, targets[0], JNull)
  }

  /**
   * `targets`, then `if not targets:` the URL comprehension: the anchors with
   * the URL and the link text when there are any, else all anchors with the URL.
   */
  function LinkCandidates(anchors: seq<Elem>, url: Json, text: Json): (r: Result<seq<Elem>>)
    ensures r.Failure? <==> LinkTargets(anchors, url, text).Failure?
    ensures r.Success? ==> r.value == if LinkFilter(anchors, url, text) != [] then LinkFilter(anchors, url, text)
                                      else HrefTargets(anchors, url)
    ensures r.Success? ==> forall a :: a in r.value ==> a in anchors && HrefIs(a, url)
    ensures (forall i :: 0 <= i < |anchors| ==> !HrefIs(anchors[i], url)) ==> r == Success([])
  {
    match LinkTargets(anchors, url, text)
    case Failure(e) => Failure(e)
    case Success(withText) => Success(if withText == [] then HrefTargets(anchors, url) else withText)
  }

  /** Step 5, computing `LinkSpanOf`. */
  method LinkSpan(page: Page, starts: seq<int>, url: Json, text: Json) returns (r: Result<Option<(nat, nat)>>)
    requires starts == LineStarts(page.raw)
    ensures !Truthy(url) ==> r == Success(None)
    ensures r.Success? && r.value.Some? ==>
      var (s, e) := r.value.value;
      && s < e <= |page.raw|
      && exists a :: a in page.css(AnchorSelector) && HrefIs(a, url)
                     && TagEndAt(page.raw, LowerStr(a.tag), s).Some?
                     && (NoGt(KeyAttrs(KeyAttrNames, a.attrib)) ==>
                           StartTagAt(page.raw, LowerStr(a.tag), KeyAttrs(KeyAttrNames, a.attrib), s).Some?)
    ensures Truthy(url) && (forall i :: 0 <= i < |page.css(AnchorSelector)| ==> !HrefIs(page.css(AnchorSelector)[i], url))
            ==> r == Success(None)
    ensures r == LinkSpanOf(page, starts, url, text)
  {
    if !Truthy(url) {
      return Success(None);
    }
    var targets :- LinkCandidates(page.css(AnchorSelector), url, text);
    if targets == [] {
      return Success(None);
    }
    assert targets[0] in targets;
    var offsets :- MapElemToOffsets(page.raw, starts, targets[0], JNull);
    return Success(offsets);
  }

  /**
   * The `<head>` slice given as evidence of a missing title or description:
   * from the first `<head…>` start tag to the end of the first `</head>`,
   * when that closing tag starts after the start tag.
   */
  function HeadSpan(raw: string): (r: Option<(nat, nat)>)
    ensures r.Some? ==> r.value.0 < r.value.1 <= |raw| && raw[r.value.0] == '<' && raw[r.value.1 - 1] == '>'
    ensures r.Some? ==> StartTagAt(raw, "head", [], r.value.0).Some?
    ensures Search(raw, HeadOpen, 0).None? || Search(raw, HeadClose, 0).None? ==> r.None?
  {
    var o := Search(raw, HeadOpen, 0);
    var c := Search(raw, HeadClose, 0);
    if o.Some? && c.Some? && c.value.0 > o.value.0 then Some((o.value.0, c.value.1)) else None
  }

  /**
   * The slice runs from the first `<head…>` match to the end of the first
   * `</head>` match, exactly when the latter starts after the former.
   */
  lemma HeadSpanFirst(raw: string)
    ensures HeadSpan(raw).Some? ==>
      && FirstMatchAt(raw, HeadOpen, HeadSpan(raw).value.0)
      && exists c: nat :: FirstMatchAt(raw, HeadClose, c) && HeadSpan(raw).value.0 < c
                          && MatchAt(raw, HeadClose, c) == Some(HeadSpan(raw).value.1)
    ensures forall o: nat, c: nat :: FirstMatchAt(raw, HeadOpen, o) && FirstMatchAt(raw, HeadClose, c) ==>
      (HeadSpan(raw).Some? <==> o < c)
  {
    var o := Search(raw, HeadOpen, 0);
    var c := Search(raw, HeadClose, 0);
    if o.Some? {
      SearchIsFirstMatch(raw, HeadOpen, o.value.0);
    }
    if c.Some? {
      SearchIsFirstMatch(raw, HeadClose, c.value.0);
    }
    forall o': nat, c': nat | FirstMatchAt(raw, HeadOpen, o') && FirstMatchAt(raw, HeadClose, c')
      ensures HeadSpan(raw).Some? <==> o' < c'
    {
      SearchIsFirstMatch(raw, HeadOpen, o');
      SearchIsFirstMatch(raw, HeadClose, c');
    }
  }

  /** The audits whose absence the `<head>` slice documents. */
  predicate DocumentLevel(auditId: string) {
    auditId == "document-title" || auditId == "meta-description"
  }

  /**
   * Step 6: for "document-title" the span `map_elem_to_offsets` gives the
   * first `head > title` element, if any; for both document-level audits,
   * else the `<head>` slice.
   */
  function DocumentSpanOf(page: Page, starts: seq<int>, auditId: string): (r: Result<Option<(nat, nat)>>)
    requires starts == LineStarts(page.raw)
    ensures SpanIn(page.raw, r)
  {
    if !DocumentLevel(auditId) then Success(None)
    else
      var titles := page.css("head > title");
      var viaTitle := if auditId == "document-title" && titles != [] then ElemOffsetsOf(page.raw, starts, titles[0], JNull)
                      else Success(None);
      OrElse(viaTitle, Success(HeadSpan(page.raw)))
  }

  /** Step 6, computing `DocumentSpanOf`. */
  method DocumentSpan(page: Page, starts: seq<int>, auditId: string) returns (r: Result<Option<(nat, nat)>>)
    requires starts == LineStarts(page.raw)
    ensures !DocumentLevel(auditId) ==> r == Success(None)
    ensures auditId == "meta-description" ==> r == Success(HeadSpan(page.raw))
    ensures auditId == "document-title" && page.css("head > title") == [] ==> r == Success(HeadSpan(page.raw))
    ensures r.Success? && r.value.Some? ==> r.value.value.0 < r.value.value.1 <= |page.raw|
    ensures r == DocumentSpanOf(page, starts, auditId)
  {
    if !DocumentLevel(auditId) {
      return Success(None);
    }
    if auditId == "document-title" {
      var titles := page.css("head > title");
      if titles != [] {
        var offsets :- MapElemToOffsets(page.raw, starts, titles[0], JNull);
        if offsets.Some? {
          return Success(offsets);
        }
      }
    }
    return Success(HeadSpan(page.raw));
  }

  /** Step 7: the first occurrence of a non-empty code value. */
  function CodeSpan(raw: string, code: Option<string>): (r: Option<(nat, nat)>)
    ensures r.Some? ==> code.Some? && code.value != [] && r.value.0 < r.value.1 <= |raw|
                        && raw[r.value.0..r.value.1] == code.value
    ensures r.Some? ==> forall j :: 0 <= j < r.value.0 ==> !OccursAt(raw, code.value, j)
    ensures code.Some? && code.value != [] && (exists j :: OccursAt(raw, code.value, j)) ==> r.Some?
  {
    if code.None? || code.value == [] then None
    else match Find(raw, code.value)
      case None => None
      case Some(o) => Some((o, o + |code.value|))
  }

  /** The span a located issue gets when its snippet is found: the snippet's first occurrence. */
  function SnippetSpan(raw: string, snippet: Json): (r: (nat, nat))
    requires SnippetFound(raw, snippet)
    ensures r.0 < r.1 <= |raw| && raw[r.0..r.1] == snippet.s
    ensures forall j :: 0 <= j < r.0 ==> !OccursAt(raw, snippet.s, j)
  {
    var o := Find(raw, snippet.s).value;
    (o, o + |snippet.s|)
  }

  /**
   * The chain of `match_single_issue`: the outcome of the first of steps 1-4,
   * 5, 6 and 7 that raises or finds a span; each later step is tried only
   * when the ones before it found nothing.
   */
  function IssueSpanOf(page: Page, issue: Issue): (r: Result<Option<(nat, nat)>>)
    ensures SpanIn(page.raw, r)
  {
    var starts := LineStarts(page.raw);
    OrElse(NodeSpanOf(page, starts, NodeOf(issue)),
      OrElse(LinkSpanOf(page, starts, issue.url, issue.linkText),
        OrElse(DocumentSpanOf(page, starts, issue.auditId),
          Success(CodeSpan(page.raw, issue.code)))))
  }

  /** Steps 5 to 7, tried when the node descriptor gives no span: the link, the document-level audit, the code. */
  method FallbackSpan(page: Page, starts: seq<int>, issue: Issue) returns (r: Result<Option<(nat, nat)>>)
    requires starts == LineStarts(page.raw)
    ensures r == OrElse(LinkSpanOf(page, starts, issue.url, issue.linkText),
                   OrElse(DocumentSpanOf(page, starts, issue.auditId), Success(CodeSpan(page.raw, issue.code))))
    ensures r.Success? && r.value.Some? ==> r.value.value.0 < r.value.value.1 <= |page.raw|
    ensures !Truthy(issue.url) && !DocumentLevel(issue.auditId) ==> r == Success(CodeSpan(page.raw, issue.code))
    ensures !Truthy(issue.url) && issue.auditId == "meta-description" && HeadSpan(page.raw).Some? ==>
      r == Success(HeadSpan(page.raw))
  {
    var span :- LinkSpan(page, starts, issue.url, issue.linkText);
    if span.None? {
      span :- DocumentSpan(page, starts, issue.auditId);
    }
    if span.None? {
      span := CodeSpan(page.raw, issue.code);
    }
    return Success(span);
  }

  /** The span the chain of steps gives an issue, if any. */
  method IssueSpan(page: Page, issue: Issue) returns (r: Result<Option<(nat, nat)>>)
    ensures r == IssueSpanOf(page, issue)
    ensures r.Success? && r.value.Some? ==> r.value.value.0 < r.value.value.1 <= |page.raw|
    ensures SnippetFound(page.raw, NodeOf(issue).snippet) && r.Success? ==>
      r.value == Some(SnippetSpan(page.raw, NodeOf(issue).snippet))
    ensures Truthy(NodeOf(issue).snippet) && !NodeOf(issue).snippet.JStr? ==> r.Failure?
    ensures issue.node.None? && !Truthy(issue.url) && !DocumentLevel(issue.auditId) ==>
      r == Success(CodeSpan(page.raw, issue.code))
    ensures issue.node.None? && !Truthy(issue.url) && issue.auditId == "meta-description" && HeadSpan(page.raw).Some? ==>
      r == Success(HeadSpan(page.raw))
  {
    var starts := BuildLineIndex(page.raw);
    var n := NodeOf(issue);
    var first := NodeSpan(page, starts, n);
    if first.Failure? || first.value.Some? {
      return first;
    }
    r := FallbackSpan(page, starts, issue);
  }

  /** The issue located at the chain's span, unchanged when it has none; the chain's exception otherwise. */
  function MatchedIssue(page: Page, issue: Issue): (r: Result<Issue>)
    ensures r.Failure? <==> IssueSpanOf(page, issue).Failure?
    ensures r.Success? && IssueSpanOf(page, issue).value.None? ==> r.value == issue
    ensures r.Success? && IssueSpanOf(page, issue).value.Some? ==> LocatedIn(page.raw, issue, r.value)
  {
    match IssueSpanOf(page, issue)
    case Failure(e) => Failure(e)
    case Success(None) => Success(issue)
    case Success(Some((s, e))) => Success(Located(issue, page.raw, s, e))
  }

  /**
   * `match_single_issue`: the issue located by the first step of the chain
   * that finds a span, or unchanged when none does. The exceptions the
   * steps raise are `Failure`.
   */
  method MatchSingleIssue(page: Page, issue: Issue) returns (r: Result<Issue>)
    ensures r == MatchedIssue(page, issue)
    ensures r.Success? ==> r.value == issue || LocatedIn(page.raw, issue, r.value)
    ensures SnippetFound(page.raw, NodeOf(issue).snippet) && r.Success? ==>
      var (s, e) := SnippetSpan(page.raw, NodeOf(issue).snippet);
      r.value == Located(issue, page.raw, s, e)
    ensures Truthy(NodeOf(issue).snippet) && !NodeOf(issue).snippet.JStr? ==> r.Failure?
    ensures issue.node.None? && !Truthy(issue.url) && !DocumentLevel(issue.auditId) ==>
      r == Success(match CodeSpan(page.raw, issue.code)
                   case None => issue
                   case Some((s, e)) => Located(issue, page.raw, s, e))
    ensures issue.node.None? && !Truthy(issue.url) && issue.auditId == "meta-description" && HeadSpan(page.raw).Some? ==>
      r == Success(Located(issue, page.raw, HeadSpan(page.raw).value.0, HeadSpan(page.raw).value.1))
  {
    var span :- IssueSpan(page, issue);
    if span.None? {
      return Success(issue);
    }
    var (s, e) := span.value;
    return Success(Located(issue, page.raw, s, e));
  }

  /**
   * `match_issues`: every issue through the chain, in order, with the score
   * copied; an exception in any issue ends the whole call.
   */
  method MatchIssues(page: Page, parsed: IssueSet) returns (r: Result<IssueSet>)
    ensures r.Success? ==> r.value.seoScore == parsed.seoScore && |r.value.issues| == |parsed.issues|
    ensures r.Success? ==> forall i :: 0 <= i < |parsed.issues| ==>
              r.value.issues[i] == parsed.issues[i] || LocatedIn(page.raw, parsed.issues[i], r.value.issues[i])
    ensures r.Success? ==> forall i :: 0 <= i < |parsed.issues| && SnippetFound(page.raw, NodeOf(parsed.issues[i]).snippet) ==>
              var (s, e) := SnippetSpan(page.raw, NodeOf(parsed.issues[i]).snippet);
              r.value.issues[i] == Located(parsed.issues[i], page.raw, s, e)
    ensures r.Failure? <==> exists i :: 0 <= i < |parsed.issues| && MatchedIssue(page, parsed.issues[i]).Failure?
    ensures r.Success? ==> forall i :: 0 <= i < |parsed.issues| ==> MatchedIssue(page, parsed.issues[i]) == Success(r.value.issues[i])
  {
    var out: seq<Issue> := [];
    var k := 0;
    while k < |parsed.issues|
      invariant 0 <= k <= |parsed.issues| && |out| == k
      invariant forall i :: 0 <= i < k ==> MatchedIssue(page, parsed.issues[i]) == Success(out[i])
    {
      var one :- MatchSingleIssue(page, parsed.issues[k]);
      MatchedExtend(page, parsed.issues, out, one);
      out := out + [one];
      k := k + 1;
    }
    AllMatchedFrom(page, parsed.issues, out);
    return Success(IssueSet(parsed.seoScore, out));
  }

  /** One more issue through the chain extends the matched prefix by its result. */
  lemma MatchedExtend(page: Page, issues: seq<Issue>, out: seq<Issue>, one: Issue)
    requires |out| < |issues|
    requires forall i :: 0 <= i < |out| ==> MatchedIssue(page, issues[i]) == Success(out[i])
    requires MatchedIssue(page, issues[|out|]) == Success(one)
    ensures forall i :: 0 <= i < |out| + 1 ==> MatchedIssue(page, issues[i]) == Success((out + [one])[i])
  {
    forall i | 0 <= i < |out| + 1
      ensures MatchedIssue(page, issues[i]) == Success((out + [one])[i])
    {
      if i < |out| {
        assert (out + [one])[i] == out[i];
      } else {
        assert (out + [one])[i] == one;
      }
    }
  }

  /** What `MatchedIssue` promises, issue by issue, over a whole list. */
  lemma AllMatchedFrom(page: Page, issues: seq<Issue>, out: seq<Issue>)
    requires |out| == |issues|
    requires forall i :: 0 <= i < |issues| ==> MatchedIssue(page, issues[i]) == Success(out[i])
    ensures forall i :: 0 <= i < |issues| ==> MatchedFrom(page.raw, issues[i], out[i])
  {
    forall i | 0 <= i < |issues|
      ensures MatchedFrom(page.raw, issues[i], out[i])
    {
      MatchedIssueFrom(page, issues[i], out[i]);
    }
  }

  /** A matched issue is unchanged or located, and located at its snippet when that is found. */
  lemma MatchedIssueFrom(page: Page, issue: Issue, after: Issue)
    requires MatchedIssue(page, issue) == Success(after)
    ensures MatchedFrom(page.raw, issue, after)
  {
    SnippetFirst(page, issue);
  }

  /** A snippet found in the text decides the chain: its first occurrence, unless a step before raises. */
  lemma SnippetFirst(page: Page, issue: Issue)
    ensures SnippetFound(page.raw, NodeOf(issue).snippet) && IssueSpanOf(page, issue).Success? ==>
      IssueSpanOf(page, issue).value == Some(SnippetSpan(page.raw, NodeOf(issue).snippet))
  {
  }

  /** What the chain promises about one issue: unchanged or located, and located at its snippet when that is found. */
  ghost predicate MatchedFrom(raw: string, before: Issue, after: Issue) {
    && (after == before || LocatedIn(raw, before, after))
    && (SnippetFound(raw, NodeOf(before).snippet) ==>
          var (s, e) := SnippetSpan(raw, NodeOf(before).snippet);
          after == Located(before, raw, s, e))
  }
}
