/**
  The browser as the scraper sees it: the page currently loaded, the page states
  that successive pagination clicks lead to, and the outside world (page loads,
  URL parsing, profile tabs, the search form) as parameters.
*/
module Browser {
  import opened Wrappers
  import opened Dom

  /** A loaded page: `driver.current_url` and its DOM. */
  datatype Snapshot = Snapshot(url: string, dom: Tree)

  /**
    What one pagination click does: load another page, or (a "more" button) add
    elements to the same DOM, the ones already there keeping their state.
  */
  datatype Step = Navigate(to: Snapshot) | LoadMore(nodes: seq<Node>)

  /** A page as loaded: its snapshot and what the pagination clicks on it will do. */
  datatype PageState = Loaded(current: Snapshot, ahead: seq<Step>)

  /** A step can follow a page of `len` nodes: new nodes hang below earlier ones. */
  predicate StepFits(len: nat, st: Step) {
    match st
    case Navigate(to) => Valid(to.dom)
    case LoadMore(nodes) => forall k :: 0 <= k < |nodes| ==> nodes[k].parent.Some? && nodes[k].parent.value < len + k
  }

  function LenAfter(len: nat, st: Step): nat {
    match st
    case Navigate(to) => |to.dom.nodes|
    case LoadMore(nodes) => len + |nodes|
  }

  predicate StepsFit(len: nat, steps: seq<Step>)
    decreases |steps|
  {
    steps == [] || (StepFits(len, steps[0]) && StepsFit(LenAfter(len, steps[0]), steps[1..]))
  }

  predicate PageOk(p: PageState) {
    Valid(p.current.dom) && StepsFit(|p.current.dom.nodes|, p.ahead)
  }

  /** The page after a click that has an effect. */
  function Apply(s: Snapshot, st: Step): (r: Snapshot)
    requires Valid(s.dom) && StepFits(|s.dom.nodes|, st)
    ensures Valid(r.dom) && |r.dom.nodes| == LenAfter(|s.dom.nodes|, st)
    ensures st.LoadMore? ==> r.url == s.url && s.dom.nodes <= r.dom.nodes
  {
    match st
    case Navigate(to) => to
    case LoadMore(nodes) => Snapshot(s.url, Tree(s.dom.nodes + nodes))
  }

  /** One choice of the search form: option text `option` of select element `select`. */
  datatype Choice = Choice(select: nat, option: string)

  /**
    What lies outside the scraper: loading a URL, `urlparse(...).path`, `urljoin`,
    the document of a profile opened in a new tab, submitting the search form with
    a configuration (`None` when the page has no search button), how many
    search-box submissions fail, and whether the sitemap strategy succeeds.
  */
  datatype World = World(
    load: string -> PageState,
    pathOf: string -> string,
    urlJoin: (string, string) -> string,
    fetch: string -> Tree,
    search: (PageState, seq<Choice>) -> Option<PageState>,
    searchBoxFailures: nat,
    sitemapOk: bool)

  /** Every page the world hands out is a well-formed snapshot. */
  ghost predicate WorldOk(w: World) {
    && (forall u :: PageOk(w.load(u)))
    && (forall u :: Valid(w.fetch(u)))
    && (forall p, c :: w.search(p, c).Some? ==> PageOk(w.search(p, c).value))
  }

  /** The browser tab the scraper drives. */
  class Page {
    var current: Snapshot
    var ahead: seq<Step>

    function State(): PageState
      reads this
    {
      Loaded(current, ahead)
    }

    predicate Ok()
      reads this
    {
      PageOk(State())
    }

    constructor (p: PageState)
      ensures State() == p
    {
      current := p.current;
      ahead := p.ahead;
    }

    /** `driver.get(url)`, the world having produced the page `p`. */
    method Load(p: PageState)
      modifies this
      ensures State() == p
    {
      current := p.current;
      ahead := p.ahead;
    }

    /** `setAttribute('class', 'GARBAGE')` on element `i`. */
    method Mark(i: nat)
      requires Ok() && i < |current.dom.nodes|
      modifies this
      ensures Ok()
      ensures State() == Loaded(old(current).(dom := MarkGarbage(old(current.dom), i)), old(ahead))
    {
      current := current.(dom := MarkGarbage(current.dom, i));
    }

    /**
      A script click on a pagination anchor: the next step happens, if any is left;
      otherwise the page stays as it is.
    */
    method Click() returns (moved: bool)
      requires Ok()
      modifies this
      ensures Ok()
      ensures moved <==> old(ahead) != []
      ensures moved ==> State() == Loaded(Apply(old(current), old(ahead)[0]), old(ahead)[1..])
      ensures !moved ==> State() == old(State())
    {
      moved := ahead != [];
      if moved {
        current := Apply(current, ahead[0]);
        ahead := ahead[1..];
      }
    }
  }
}
