/**
  An immutable snapshot of a rendered page, standing in for the live WebDriver
  handle. Nodes are listed in document order and addressed by their position;
  node 0 is the document element and every other node's parent comes before it.
  Element queries (`find_elements` by tag name, `child::*`, the XPath `text()` test, and
  the two kinds of CSS selector the scraper builds) are functions on the snapshot.
*/
module Dom {
  import opened Wrappers
  import opened Strings

  /** One element: its tag, raw class attribute, rendered text and href. */
  datatype Node = Node(
    tag: string,           // lower-case tag name, as `tag_name` reports it
    classAttr: string,     // the class attribute, "" when absent
    text: string,          // rendered text of the element and its descendants
    hasTextChild: bool,    // the element has a direct text-node child (XPath `text()`)
    href: Option<string>,  // `get_dom_attribute("href")`
    parent: Option<nat>)

  datatype Tree = Tree(nodes: seq<Node>)

  /** A snapshot is a single tree rooted at node 0, parents preceding their children. */
  predicate Valid(t: Tree) {
    && |t.nodes| > 0
    && t.nodes[0].parent == None
    && forall i :: 0 < i < |t.nodes| ==> t.nodes[i].parent.Some? && t.nodes[i].parent.value < i
  }

  function ParentOf(t: Tree, i: nat): (p: nat)
    requires Valid(t) && 0 < i < |t.nodes|
    ensures p < i
  {
    t.nodes[i].parent.value
  }

  /** The class tokens of node `i`: `get_attribute("class").split()`. */
  function Classes(t: Tree, i: nat): (r: seq<string>)
    requires i < |t.nodes|
    ensures forall c :: c in r ==> IsToken(c)
  {
    Tokens(t.nodes[i].classAttr)
  }

  /** Number of steps from node `i` up to the root. */
  function Depth(t: Tree, i: nat): nat
    requires Valid(t) && i < |t.nodes|
    decreases i
  {
    if i == 0 then 0 else 1 + Depth(t, ParentOf(t, i))
  }

  /** The ancestor `k` steps above node `i` (`i` itself for `k == 0`). */
  function Up(t: Tree, i: nat, k: nat): (a: nat)
    requires Valid(t) && i < |t.nodes| && k <= Depth(t, i)
    ensures a <= i
    ensures Depth(t, a) == Depth(t, i) - k
    decreases k
  {
    if k == 0 then i else Up(t, ParentOf(t, i), k - 1)
  }

  /** `a` is a proper ancestor of `i`. */
  predicate IsAncestor(t: Tree, a: nat, i: nat)
    requires Valid(t) && i < |t.nodes|
    decreases i
  {
    i != 0 && (ParentOf(t, i) == a || IsAncestor(t, a, ParentOf(t, i)))
  }

  // ---------------------------------------------------------------------------
  // Selectors

  /** The two selector shapes the scraper infers: `.a.b` and `html > body > div`. */
  datatype Selector = ClassSel(tokens: seq<string>) | TagPath(tags: seq<string>)

  /** The selector string handed to `find_elements(By.CSS_SELECTOR, ...)`. */
  function Render(s: Selector): string {
    match s
    case ClassSel(ts) => "." + Join(".", ts)
    case TagPath(tags) => Join(" > ", tags)
  }

  /** "." (no class at all) and "" are not selectors; the browser rejects them. */
  predicate IsWellFormed(s: Selector) {
    match s
    case ClassSel(ts) => ts != []
    case TagPath(tags) => tags != []
  }

  /** Node `i` carries every class of `ts`. */
  predicate HasClasses(t: Tree, ts: seq<string>, i: nat)
    requires i < |t.nodes|
  {
    forall k :: 0 <= k < |ts| ==> ts[k] in Classes(t, i)
  }

  /** Child-combinator path: `i` has the last tag, its parent the one before, and so on. */
  predicate MatchesPath(t: Tree, tags: seq<string>, i: nat)
    requires Valid(t) && i < |t.nodes|
    decreases |tags|
  {
    && tags != []
    && t.nodes[i].tag == tags[|tags| - 1]
    && (|tags| == 1 || (i != 0 && MatchesPath(t, tags[..|tags| - 1], ParentOf(t, i))))
  }

  predicate Matches(t: Tree, s: Selector, i: nat)
    requires Valid(t) && i < |t.nodes|
  {
    match s
    case ClassSel(ts) => ts != [] && HasClasses(t, ts, i)
    case TagPath(tags) => MatchesPath(t, tags, i)
  }

  // ---------------------------------------------------------------------------
  // Queries

  /** The element queries the scraper issues. */
  datatype Query =
    | TagBelow(n: nat, tag: string)   // element.find_elements(By.TAG_NAME, tag): proper descendants
    | TagAnywhere(tag: string)        // driver.find_elements(By.TAG_NAME, tag)
    | ChildOf(n: nat)                 // element.find_elements(By.XPATH, "child::*")
    | WithText                        // elements with a text-node child (XPath `text()`)
    | Css(sel: Selector)              // driver.find_elements(By.CSS_SELECTOR, Render(sel))

  predicate Hit(t: Tree, q: Query, i: nat)
    requires Valid(t) && i < |t.nodes|
  {
    match q
    case TagBelow(n, tag) => t.nodes[i].tag == tag && IsAncestor(t, n, i)
    case TagAnywhere(tag) => t.nodes[i].tag == tag
    case ChildOf(n) => t.nodes[i].parent == Some(n)
    case WithText => t.nodes[i].hasTextChild
    case Css(sel) => Matches(t, sel, i)
  }

  /** The hits of `q` among the first `hi` nodes, in document order. */
  function FindUpTo(t: Tree, q: Query, hi: nat): (r: seq<nat>)
    requires Valid(t) && hi <= |t.nodes|
    ensures forall x: nat :: x in r <==> x < hi && Hit(t, q, x)
    ensures forall k :: 0 <= k < |r| ==> r[k] < hi
    ensures forall a, b :: 0 <= a < b < |r| ==> r[a] < r[b]
    decreases hi
  {
    if hi == 0 then []
    else FindUpTo(t, q, hi - 1) + (if Hit(t, q, hi - 1) then [hi - 1] else [])
  }

  /** Every hit of `q`, in document order. */
  function FindAll(t: Tree, q: Query): (r: seq<nat>)
    requires Valid(t)
    ensures forall x: nat :: x in r <==> x < |t.nodes| && Hit(t, q, x)
    ensures forall k :: 0 <= k < |r| ==> r[k] < |t.nodes|
    ensures forall a, b :: 0 <= a < b < |r| ==> r[a] < r[b]
  {
    FindUpTo(t, q, |t.nodes|)
  }

  function Children(t: Tree, n: nat): (r: seq<nat>)
    requires Valid(t)
    ensures forall x :: x in r ==> x < |t.nodes| && n < x
  {
    FindAll(t, ChildOf(n))
  }

  /** `len(element.find_elements(By.TAG_NAME, "a"))`. */
  function AnchorCount(t: Tree, n: nat): nat
    requires Valid(t)
  {
    |FindAll(t, TagBelow(n, "a"))|
  }

  /** The hrefs of the anchors below `n`, in document order, `None` where absent. */
  function AnchorHrefs(t: Tree, n: nat): (r: seq<Option<string>>)
    requires Valid(t)
  {
    var anchors := FindAll(t, TagBelow(n, "a"));
    seq(|anchors|, k requires 0 <= k < |anchors| => t.nodes[anchors[k]].href)
  }

  /** The rendered texts of the children of `n`, in order. */
  function ChildTexts(t: Tree, n: nat): (r: seq<string>)
    requires Valid(t)
  {
    var children := Children(t, n);
    seq(|children|, k requires 0 <= k < |children| => t.nodes[children[k]].text)
  }

  // ---------------------------------------------------------------------------
  // The one in-place change the scraper makes to a page

  /** `setAttribute('class', 'GARBAGE')` on node `i`. */
  function MarkGarbage(t: Tree, i: nat): (r: Tree)
    requires Valid(t) && i < |t.nodes|
    ensures Valid(r) && |r.nodes| == |t.nodes|
  {
    Tree(t.nodes[i := t.nodes[i].(classAttr := "GARBAGE")])
  }

  /** Marking gives node `i` the single class "GARBAGE" and changes nothing else. */
  lemma MarkGarbageEffect(t: Tree, i: nat)
    requires Valid(t) && i < |t.nodes|
    ensures var r := MarkGarbage(t, i);
      && Classes(r, i) == ["GARBAGE"]
      && (forall j :: 0 <= j < |t.nodes| && j != i ==> r.nodes[j] == t.nodes[j])
      && SameShape(t, r)
  {
    TokensOfToken("GARBAGE");
  }

  /** `r` differs from `t` at most in class attributes. */
  predicate SameShape(t: Tree, r: Tree) {
    && |r.nodes| == |t.nodes|
    && forall j :: 0 <= j < |t.nodes| ==> r.nodes[j] == t.nodes[j].(classAttr := r.nodes[j].classAttr)
  }

  /** `setAttribute('class', 'GARBAGE')` on each of `marked`, in order. */
  function MarkAll(t: Tree, marked: seq<nat>): (r: Tree)
    requires Valid(t) && forall k :: 0 <= k < |marked| ==> marked[k] < |t.nodes|
    ensures Valid(r) && |r.nodes| == |t.nodes|
    decreases |marked|
  {
    if marked == [] then t
    else MarkGarbage(MarkAll(t, marked[..|marked| - 1]), marked[|marked| - 1])
  }

  /**
    Marking a list of nodes gives each of them the single class "GARBAGE", leaves
    every other node as it was, and changes nothing but class attributes.
  */
  lemma {:induction false} MarkAllEffect(t: Tree, marked: seq<nat>)
    requires Valid(t) && forall k :: 0 <= k < |marked| ==> marked[k] < |t.nodes|
    ensures var r := MarkAll(t, marked);
      && SameShape(t, r)
      && (forall k :: 0 <= k < |marked| ==> Classes(r, marked[k]) == ["GARBAGE"])
      && (forall j :: 0 <= j < |t.nodes| && j !in marked ==> r.nodes[j] == t.nodes[j])
    decreases |marked|
  {
    if marked != [] {
      var init := marked[..|marked| - 1];
      var last := marked[|marked| - 1];
      MarkAllEffect(t, init);
      var m := MarkAll(t, init);
      MarkGarbageEffect(m, last);
      var r := MarkGarbage(m, last);
      forall k | 0 <= k < |marked| ensures Classes(r, marked[k]) == ["GARBAGE"] {
        if k < |marked| - 1 && marked[k] != last {
          assert marked[k] == init[k];
          assert r.nodes[marked[k]] == m.nodes[marked[k]];
        }
      }
      forall j | 0 <= j < |t.nodes| && j !in marked ensures r.nodes[j] == t.nodes[j] {
        assert j !in init;
      }
    }
  }

  /**
    Changing class attributes alone changes no query other than a CSS one: tags,
    texts, hrefs and parents stay as they were.
  */
  lemma {:induction false} SameShapeQueries(t: Tree, r: Tree, q: Query, hi: nat)
    requires Valid(t) && Valid(r) && SameShape(t, r) && hi <= |t.nodes|
    requires !q.Css?
    ensures FindUpTo(r, q, hi) == FindUpTo(t, q, hi)
    decreases hi
  {
    if hi > 0 {
      SameShapeQueries(t, r, q, hi - 1);
      SameShapeHit(t, r, q, hi - 1);
    }
  }

  lemma SameShapeHit(t: Tree, r: Tree, q: Query, i: nat)
    requires Valid(t) && Valid(r) && SameShape(t, r) && i < |t.nodes|
    requires !q.Css?
    ensures Hit(r, q, i) == Hit(t, q, i)
  {
    assert r.nodes[i] == t.nodes[i].(classAttr := r.nodes[i].classAttr);
    if q.TagBelow? {
      AncestorUnchanged(t, r, q.n, i);
    }
  }

  /** What the scraper reads from an element is the same on a page that differs only in classes. */
  lemma SameShapeViews(t: Tree, r: Tree, n: nat)
    requires Valid(t) && Valid(r) && SameShape(t, r)
    ensures AnchorHrefs(r, n) == AnchorHrefs(t, n)
    ensures ChildTexts(r, n) == ChildTexts(t, n)
    ensures AnchorCount(r, n) == AnchorCount(t, n)
    ensures FindAll(r, TagAnywhere("a")) == FindAll(t, TagAnywhere("a"))
  {
    SameShapeQueries(t, r, TagBelow(n, "a"), |t.nodes|);
    SameShapeQueries(t, r, ChildOf(n), |t.nodes|);
    SameShapeQueries(t, r, TagAnywhere("a"), |t.nodes|);
  }

  /**
    The marking keeps an element from being selected again by a class selector
    (unless the selector asks for nothing but the class "GARBAGE"), but a tag-path
    selector still matches it.
  */
  lemma MarkHidesFromClassSelectors(t: Tree, i: nat, s: Selector)
    requires Valid(t) && i < |t.nodes|
    ensures s.ClassSel? && Matches(MarkGarbage(t, i), s, i) ==> forall k :: 0 <= k < |s.tokens| ==> s.tokens[k] == "GARBAGE"
    ensures s.TagPath? ==> (Matches(MarkGarbage(t, i), s, i) <==> Matches(t, s, i))
  {
    var r := MarkGarbage(t, i);
    MarkGarbageEffect(t, i);
    if s.TagPath? {
      PathUnchanged(t, r, s.tags, i);
    }
  }

  lemma {:induction false} PathUnchanged(t: Tree, r: Tree, tags: seq<string>, i: nat)
    requires Valid(t) && Valid(r) && SameShape(t, r) && i < |t.nodes|
    ensures MatchesPath(r, tags, i) == MatchesPath(t, tags, i)
    decreases |tags|
  {
    if tags != [] && |tags| > 1 && i != 0 {
      PathUnchanged(t, r, tags[..|tags| - 1], ParentOf(t, i));
    }
  }

  lemma {:induction false} AncestorUnchanged(t: Tree, r: Tree, a: nat, i: nat)
    requires Valid(t) && Valid(r) && |t.nodes| == |r.nodes| && i < |t.nodes|
    requires forall j :: 0 <= j < |t.nodes| ==> r.nodes[j].parent == t.nodes[j].parent
    ensures IsAncestor(r, a, i) == IsAncestor(t, a, i)
    decreases i
  {
    if i != 0 {
      AncestorUnchanged(t, r, a, ParentOf(t, i));
    }
  }
}
