/**
  A scraping job (`FirmJob` in models.py): find the firm's team page from its
  homepage, search it with every combination of key filter options, and on each
  result page infer the profile-card selector, skim the cards up to the job's
  limit, and follow the pagination links. When the team-page strategy raises, the
  sitemap strategy is tried, and the job records the outcome.
*/
module Jobs {
  import opened Wrappers
  import opened Strings
  import opened Dom
  import opened Errors
  import opened Constants
  import opened Browser
  import opened SearchConfigs
  import opened Profiles
  import Util

  /** `limit`: a number of profiles, or none at all (`float("inf")`). */
  datatype Limit = Bounded(n: int) | Unbounded

  /** What a scrape needs to know besides the page: the job's category and limit, the names, the vocabularies. */
  datatype Context = Context(firmType: FirmType, limit: Limit, nameSet: set<string>, v: Vocabulary)

  /**
    The limit is respected by what was kept: never more profiles kept than
    candidates counted, and never more than the limit.
  */
  predicate LimitKept(kept: nat, count: int, limit: Limit) {
    kept <= count && (limit.Bounded? && kept > 0 ==> kept <= limit.n)
  }

  // ---------------------------------------------------------------------------
  // Locating the team page

  /** An href whose path contains one of the keywords. */
  predicate IsTeamLink(href: Option<string>, keywords: seq<string>, pathOf: string -> string) {
    href.Some? && exists kw :: kw in keywords && Contains(pathOf(href.value), kw)
  }

  /** The first of `anchors` that links to a team page. */
  function FirstTeamAnchor(t: Tree, anchors: seq<nat>, keywords: seq<string>, pathOf: string -> string): (r: Option<nat>)
    requires forall k :: 0 <= k < |anchors| ==> anchors[k] < |t.nodes|
    ensures r.Some? ==> r.value < |t.nodes| && IsTeamLink(t.nodes[r.value].href, keywords, pathOf)
    decreases |anchors|
  {
    if anchors == [] then None
    else if IsTeamLink(t.nodes[anchors[0]].href, keywords, pathOf) then Some(anchors[0])
    else FirstTeamAnchor(t, anchors[1..], keywords, pathOf)
  }

  /** The team-page URL found on a homepage at `url`, if any. */
  function TeamPageUrl(t: Tree, url: string, keywords: seq<string>, w: World): Option<string>
    requires Valid(t)
  {
    match FirstTeamAnchor(t, FindAll(t, TagAnywhere("a")), keywords, w.pathOf)
    case None => None
    case Some(a) => Some(w.urlJoin(url, t.nodes[a].href.value))
  }

  /**
    The first team link wins: the result is anchor `i` of the list, which links to
    a team page while no earlier anchor does; there is none (`i` is -1) only when
    no anchor does.
  */
  lemma {:induction false} FirstTeamAnchorWins(t: Tree, anchors: seq<nat>, keywords: seq<string>, pathOf: string -> string)
    returns (i: int)
    requires forall k :: 0 <= k < |anchors| ==> anchors[k] < |t.nodes|
    ensures -1 <= i < |anchors|
    ensures var r := FirstTeamAnchor(t, anchors, keywords, pathOf);
      && (i == -1 <==> r.None?)
      && (0 <= i ==> r == Some(anchors[i]) && IsTeamLink(t.nodes[anchors[i]].href, keywords, pathOf))
    ensures forall j :: 0 <= j < |anchors| && (i == -1 || j < i) ==> !IsTeamLink(t.nodes[anchors[j]].href, keywords, pathOf)
    decreases |anchors|
  {
    if anchors == [] {
      i := -1;
    } else if IsTeamLink(t.nodes[anchors[0]].href, keywords, pathOf) {
      i := 0;
    } else {
      var rest := anchors[1..];
      var i' := FirstTeamAnchorWins(t, rest, keywords, pathOf);
      i := if i' == -1 then -1 else i' + 1;
      forall j | 1 <= j < |anchors| ensures anchors[j] == rest[j - 1] { }
    }
  }

  /**
    The anchor loop of `execute_team_page_strategy`: the first anchor in document
    order with an href whose path contains a team-page keyword gives the team URL.
  */
  method LocateTeamPage(t: Tree, url: string, keywords: seq<string>, w: World) returns (r: Option<string>)
    requires Valid(t)
    ensures r == TeamPageUrl(t, url, keywords, w)
  {
    var anchors := FindAll(t, TagAnywhere("a"));
    for i := 0 to |anchors|
      invariant FirstTeamAnchor(t, anchors[i..], keywords, w.pathOf) == FirstTeamAnchor(t, anchors, keywords, w.pathOf)
    {
      assert anchors[i..][0] == anchors[i] && anchors[i..][1..] == anchors[i + 1..];
      var href := t.nodes[anchors[i]].href;
      if href.Some? {
        var path := w.pathOf(href.value);
        for j := 0 to |keywords|
          invariant forall m :: 0 <= m < j ==> !Contains(path, keywords[m])
        {
          if Contains(path, keywords[j]) {
            assert keywords[j] in keywords;
            return Some(w.urlJoin(url, href.value));
          }
        }
        assert forall kw :: kw in keywords ==> !Contains(path, kw);
      }
    }
    assert anchors[|anchors|..] == [];
    r := None;
  }

  // ---------------------------------------------------------------------------
  // One extraction pass

  /** The profile made from candidate `e`: preview anchors, then the lines of its children. */
  function PreviewRecord(t: Tree, url: string, e: nat, c: Context): ProfileRecord
    requires Valid(t)
  {
    WithTextNodes(WithAnchors(NewRecord(url, c.firmType), AnchorHrefs(t, e)), ChildTexts(t, e), c.nameSet, c.v)
  }

  /** The profiles made from each of `cands`, in order. */
  function PreviewRecords(t: Tree, url: string, cands: seq<nat>, c: Context): (r: seq<ProfileRecord>)
    requires Valid(t)
    ensures |r| == |cands|
    decreases |cands|
  {
    if cands == [] then []
    else PreviewRecords(t, url, cands[..|cands| - 1], c) + [PreviewRecord(t, url, cands[|cands| - 1], c)]
  }

  /** Profile `k` of the list is the one made from candidate `k`. */
  lemma {:induction false} PreviewRecordsAt(t: Tree, url: string, cands: seq<nat>, c: Context, k: nat)
    requires Valid(t) && k < |cands|
    ensures PreviewRecords(t, url, cands, c)[k] == PreviewRecord(t, url, cands[k], c)
    decreases |cands|
  {
    var init := cands[..|cands| - 1];
    assert PreviewRecords(t, url, cands, c)
      == PreviewRecords(t, url, init, c) + [PreviewRecord(t, url, cands[|cands| - 1], c)];
    if k < |cands| - 1 {
      PreviewRecordsAt(t, url, init, c, k);
      assert init[k] == cands[k];
    }
  }

  /** How many of `n` candidates are kept when counting on from `count`: those that keep the count within the limit. */
  function Accepted(count: int, limit: Limit, n: nat): (m: nat)
    ensures m <= n
  {
    match limit
    case Unbounded => n
    case Bounded(l) => if l - count <= 0 then 0 else if l - count < n then l - count else n
  }

  /** The pass stops after `i` candidates exactly when `i` is the accepted number. */
  lemma AcceptedStops(count: int, limit: Limit, n: nat, i: nat)
    requires i <= n
    requires limit.Bounded? && i > 0 ==> count + i <= limit.n
    requires i < n ==> limit.Bounded? && count + i + 1 > limit.n
    ensures Accepted(count, limit, n) == i
  {
  }

  /** Marking one more candidate of a list. */
  lemma MarkPrefix(t: Tree, cands: seq<nat>, i: nat)
    requires Valid(t) && i < |cands| && forall k :: 0 <= k < |cands| ==> cands[k] < |t.nodes|
    ensures MarkAll(t, cands[..i + 1]) == MarkGarbage(MarkAll(t, cands[..i]), cands[i])
  {
    assert cands[..i + 1][..i] == cands[..i];
  }

  /** The profiles a pass keeps, the page after it, and the count after it. */
  datatype Skimmed = Skimmed(records: seq<ProfileRecord>, dom: Tree, count: int)

  /**
    `skim_team_page` on snapshot `s`: each candidate matching the selector raises
    the count; the first that takes it over the limit ends the pass unmarked and
    unkept; each earlier one is kept and marked.
  */
  function Skim(s: Snapshot, sel: Selector, count: int, c: Context): (r: Skimmed)
    requires Valid(s.dom)
    ensures Valid(r.dom) && |r.dom.nodes| == |s.dom.nodes|
  {
    var cands := FindAll(s.dom, Css(sel));
    var m := Accepted(count, c.limit, |cands|);
    Skimmed(
      PreviewRecords(s.dom, s.url, cands, c)[..m],
      MarkAll(s.dom, cands[..m]),
      count + m + (if m < |cands| then 1 else 0))
  }

  /**
    What a pass does to the count: it rises by one per candidate looked at; every
    kept profile had a count within the limit; a pass that stops early leaves the
    count over the limit; and then the candidate that stopped it is not marked.
  */
  lemma SkimMeaning(s: Snapshot, sel: Selector, count: int, c: Context)
    requires Valid(s.dom)
    ensures var r := Skim(s, sel, count, c);
      var cands := FindAll(s.dom, Css(sel));
      && r.count >= count + |r.records|
      && |r.records| <= |cands|
      && (c.limit.Bounded? && r.records != [] ==> count + |r.records| <= c.limit.n)
      && (|r.records| < |cands| ==> c.limit.Bounded? && r.count > c.limit.n && r.count == count + |r.records| + 1)
      && (|r.records| == |cands| ==> r.count == count + |cands|)
      && (forall k :: 0 <= k < |r.records| ==> Classes(r.dom, cands[k]) == ["GARBAGE"])
      && (|r.records| < |cands| ==> r.dom.nodes[cands[|r.records|]] == s.dom.nodes[cands[|r.records|]])
  {
    var cands := FindAll(s.dom, Css(sel));
    var m := Accepted(count, c.limit, |cands|);
    var r := Skim(s, sel, count, c);
    assert |r.records| == m && r.dom == MarkAll(s.dom, cands[..m]);
    MarkAllEffect(s.dom, cands[..m]);
    forall k | 0 <= k < m ensures Classes(r.dom, cands[k]) == ["GARBAGE"] {
      assert cands[k] == cands[..m][k];
    }
    if m < |cands| {
      assert cands[m] !in cands[..m];
    }
  }

  /** A pass keeps the limit: whatever was kept within it before stays within it. */
  lemma SkimKeepsLimit(s: Snapshot, sel: Selector, count: int, c: Context, kept: nat)
    requires Valid(s.dom) && LimitKept(kept, count, c.limit)
    ensures var r := Skim(s, sel, count, c); LimitKept(kept + |r.records|, r.count, c.limit) && r.count >= count
  {
    SkimMeaning(s, sel, count, c);
  }

  // ---------------------------------------------------------------------------
  // Completing profiles from their own pages

  /** A profile without an e-mail gets the anchors of its full profile page. */
  function Complete(p: ProfileRecord, w: World): (r: ProfileRecord)
    requires WorldOk(w)
  {
    if p.emails != "" then p else WithAnchors(p, AnchorHrefs(w.fetch(FullHref(p, w.urlJoin)), 0))
  }

  function CompleteAll(ps: seq<ProfileRecord>, w: World): (r: seq<ProfileRecord>)
    requires WorldOk(w)
    ensures |r| == |ps|
    ensures forall k :: 0 <= k < |ps| ==> r[k] == Complete(ps[k], w)
  {
    seq(|ps|, k requires 0 <= k < |ps| => Complete(ps[k], w))
  }

  /**
    Completion only adds contact links: location, category, name and key flag stay;
    a profile that has an e-mail is left alone; the fields only grow.
  */
  lemma CompleteOnlyAdds(p: ProfileRecord, w: World)
    requires WorldOk(w)
    ensures var r := Complete(p, w);
      && r.location == p.location && r.firmType == p.firmType && r.name == p.name && r.isKey == p.isKey
      && (p.emails != "" ==> r == p)
      && (p.emails == "" ==> exists hrefs :: r == WithAnchors(p, hrefs))
  {
    if p.emails == "" {
      var hrefs := AnchorHrefs(w.fetch(FullHref(p, w.urlJoin)), 0);
      assert Complete(p, w) == WithAnchors(p, hrefs);
    }
  }

  /**
    What `contains_email` and `get_full_element_href` see in `scrape_team_page`: for
    the profile made from candidate `e` (anchors, then text lines), the e-mail field
    is non-empty exactly when the card has a non-empty e-mail link, and the full
    profile URL is the card's first other link resolved against the location.
  */
  lemma PreviewContacts(t: Tree, url: string, e: nat, c: Context, urlJoin: (string, string) -> string)
    requires Valid(t)
    ensures var p := PreviewRecord(t, url, e, c);
      var hrefs := AnchorHrefs(t, e);
      && (p.emails != "" <==> HasEmailLink(hrefs))
      && (OfKind(hrefs, Other) == [] ==> FullHref(p, urlJoin) == urlJoin(url, ""))
      && (OfKind(hrefs, Other) != [] && OfKind(hrefs, Other)[0] != "" && ';' !in OfKind(hrefs, Other)[0] ==>
            FullHref(p, urlJoin) == urlJoin(url, OfKind(hrefs, Other)[0]))
  {
    var hrefs := AnchorHrefs(t, e);
    var p := PreviewRecord(t, url, e, c);
    TextNodesKeepContacts(WithAnchors(NewRecord(url, c.firmType), hrefs), ChildTexts(t, e), c.nameSet, c.v);
    EmailsRecorded(url, c.firmType, p.emails);
    FirstOtherAll(url, c.firmType, p, urlJoin);
  }

  /** The record values of a list of profiles. */
  function RecordsOf(ps: seq<PersonalProfile>): (r: seq<ProfileRecord>)
    reads set p | p in ps
    ensures |r| == |ps|
  {
    seq(|ps|, k reads set p | p in ps requires 0 <= k < |ps| => ps[k].Record())
  }

  lemma RecordsOfSnoc(ps: seq<PersonalProfile>, p: PersonalProfile)
    ensures RecordsOf(ps + [p]) == RecordsOf(ps) + [p.Record()]
  {
    assert forall k :: 0 <= k < |ps| ==> (ps + [p])[k] == ps[k];
  }

  /** No profile object occurs twice. */
  predicate Distinct(ps: seq<PersonalProfile>) {
    forall a, b :: 0 <= a < b < |ps| ==> ps[a] != ps[b]
  }

  lemma DistinctSnoc(ps: seq<PersonalProfile>, p: PersonalProfile)
    requires Distinct(ps) && p !in ps
    ensures Distinct(ps + [p])
  {
  }

  lemma PrefixSnoc<T>(s: seq<T>, i: nat)
    requires i < |s|
    ensures s[..i + 1] == s[..i] + [s[i]]
  {
  }

  /**
    The loop of `scrape_team_page` over a pass's new profiles: one without an e-mail
    has its full profile page opened (`visit_full_profile_href`); then each is kept.
  */
  method CompleteProfiles(ps: seq<PersonalProfile>, w: World) returns (records: seq<ProfileRecord>)
    requires WorldOk(w)
    requires Distinct(ps)
    modifies set p | p in ps
    ensures records == CompleteAll(old(RecordsOf(ps)), w)
  {
    records := [];
    for i := 0 to |ps|
      invariant |records| == i
      invariant forall k :: 0 <= k < i ==> records[k] == Complete(old(ps[k].Record()), w)
      invariant forall k :: i <= k < |ps| ==> ps[k].Record() == old(ps[k].Record())
    {
      var p := ps[i];
      if !p.ContainsEmail() {
        var href := p.GetFullElementHref(w.urlJoin);
        p.UpdateWithFullElement(w.fetch(href));
      }
      records := records + [p.Record()];
    }
  }

  // ---------------------------------------------------------------------------
  // Pagination

  /** A pagination anchor: "more", or the next page number. */
  datatype Link = Link(anchor: nat, numbered: bool)

  predicate IsNextText(text: string, pageIndex: nat) {
    Lower(text) == "more" || Lower(text) == NatToString(pageIndex + 1)
  }

  /** The first of `anchors` whose lower-cased text is "more" or the next page number. */
  function LinkAmong(t: Tree, anchors: seq<nat>, pageIndex: nat): Option<Link>
    requires forall k :: 0 <= k < |anchors| ==> anchors[k] < |t.nodes|
    decreases |anchors|
  {
    if anchors == [] then None
    else
      var text := Lower(t.nodes[anchors[0]].text);
      if text == "more" then Some(Link(anchors[0], false))
      else if text == NatToString(pageIndex + 1) then Some(Link(anchors[0], true))
      else LinkAmong(t, anchors[1..], pageIndex)
  }

  function NextLink(t: Tree, pageIndex: nat): Option<Link>
    requires Valid(t)
  {
    LinkAmong(t, FindAll(t, TagAnywhere("a")), pageIndex)
  }

  /**
    The link followed is the first anchor in document order whose text is "more"
    or the next page number, and it counts as numbered exactly when its text is
    not "more"; without such an anchor there is no link.
  */
  lemma {:induction false} LinkAmongMeaning(t: Tree, anchors: seq<nat>, pageIndex: nat) returns (i: int)
    requires forall k :: 0 <= k < |anchors| ==> anchors[k] < |t.nodes|
    ensures -1 <= i < |anchors|
    ensures var r := LinkAmong(t, anchors, pageIndex);
      && (i == -1 <==> r.None?)
      && (0 <= i ==> r.value.anchor == anchors[i] && IsNextText(t.nodes[anchors[i]].text, pageIndex)
                     && (r.value.numbered <==> Lower(t.nodes[anchors[i]].text) != "more"))
    ensures forall j :: 0 <= j < |anchors| && (i == -1 || j < i) ==> !IsNextText(t.nodes[anchors[j]].text, pageIndex)
    decreases |anchors|
  {
    if anchors == [] {
      i := -1;
    } else if IsNextText(t.nodes[anchors[0]].text, pageIndex) {
      i := 0;
    } else {
      var rest := anchors[1..];
      var i' := LinkAmongMeaning(t, rest, pageIndex);
      i := if i' == -1 then -1 else i' + 1;
      forall j | 1 <= j < |anchors| ensures anchors[j] == rest[j - 1] { }
    }
  }

  // ---------------------------------------------------------------------------
  // The pass loop

  /** Where the pass loop ends: the page, the count, the page index and the profiles collected. */
  datatype Scraped = Scraped(page: PageState, count: int, pageIndex: nat, profiles: seq<ProfileRecord>)

  /** The state after one pass, and whether the loop goes on. */
  datatype Pass = Pass(state: Scraped, more: bool)

  /**
    One pass of `scrape_team_page` from page state `p`: skim, complete, stop at
    exactly `limit` profiles, else follow the next link. A link whose click leads
    nowhere (no page state left) ends the loop.
  */
  function PassOnce(p: PageState, count: int, pageIndex: nat, profiles: seq<ProfileRecord>, sel: Selector, c: Context, w: World): (r: Pass)
    requires PageOk(p) && WorldOk(w)
    ensures PageOk(r.state.page)
    ensures r.more ==> |r.state.page.ahead| < |p.ahead|
  {
    var sk := Skim(p.current, sel, count, c);
    var ps := profiles + CompleteAll(sk.records, w);
    var here := Loaded(p.current.(dom := sk.dom), p.ahead);
    if c.limit == Bounded(|ps|) then Pass(Scraped(here, sk.count, pageIndex, ps), false)
    else match NextLink(sk.dom, pageIndex)
      case None => Pass(Scraped(here, sk.count, pageIndex, ps), false)
      case Some(link) =>
        var next := if link.numbered then pageIndex + 1 else pageIndex;
        if p.ahead == [] then Pass(Scraped(here, sk.count, next, ps), false)
        else Pass(Scraped(Loaded(Apply(here.current, p.ahead[0]), p.ahead[1..]), sk.count, next, ps), true)
  }

  /** The passes of `scrape_team_page`, one after the other, until one ends the loop. */
  function Passes(p: PageState, count: int, pageIndex: nat, profiles: seq<ProfileRecord>, sel: Selector, c: Context, w: World): (r: Scraped)
    requires PageOk(p) && WorldOk(w)
    ensures PageOk(r.page)
    decreases |p.ahead|
  {
    var o := PassOnce(p, count, pageIndex, profiles, sel, c, w);
    if o.more then Passes(o.state.page, o.state.count, o.state.pageIndex, o.state.profiles, sel, c, w)
    else o.state
  }

  /** The passes from a state are that state's pass, then the passes after it if it goes on. */
  lemma PassesStep(p: PageState, count: int, pageIndex: nat, profiles: seq<ProfileRecord>, sel: Selector, c: Context, w: World)
    requires PageOk(p) && WorldOk(w)
    ensures var o := PassOnce(p, count, pageIndex, profiles, sel, c, w);
      && (o.more ==> Passes(p, count, pageIndex, profiles, sel, c, w)
                       == Passes(o.state.page, o.state.count, o.state.pageIndex, o.state.profiles, sel, c, w))
      && (!o.more ==> Passes(p, count, pageIndex, profiles, sel, c, w) == o.state)
  {
  }

  /**
    One pass keeps the limit: profiles kept before, plus those kept by the pass,
    stay within the count and the limit; the count never falls; the profiles
    collected only grow.
  */
  lemma PassOnceKeepsLimit(p: PageState, count: int, pageIndex: nat, profiles: seq<ProfileRecord>,
                           sel: Selector, c: Context, w: World, before: nat)
    requires PageOk(p) && WorldOk(w)
    requires LimitKept(before + |profiles|, count, c.limit)
    ensures var r := PassOnce(p, count, pageIndex, profiles, sel, c, w).state;
      && LimitKept(before + |r.profiles|, r.count, c.limit)
      && r.count >= count
      && profiles <= r.profiles
  {
    SkimKeepsLimit(p.current, sel, count, c, before + |profiles|);
  }

  /** The limit holds across all passes, as it does across one. */
  lemma {:induction false} PassesKeepLimit(p: PageState, count: int, pageIndex: nat, profiles: seq<ProfileRecord>,
                                          sel: Selector, c: Context, w: World, before: nat)
    requires PageOk(p) && WorldOk(w)
    requires LimitKept(before + |profiles|, count, c.limit)
    ensures var r := Passes(p, count, pageIndex, profiles, sel, c, w);
      && LimitKept(before + |r.profiles|, r.count, c.limit)
      && r.count >= count
      && profiles <= r.profiles
    decreases |p.ahead|
  {
    var o := PassOnce(p, count, pageIndex, profiles, sel, c, w);
    PassOnceKeepsLimit(p, count, pageIndex, profiles, sel, c, w, before);
    if o.more {
      PassesKeepLimit(o.state.page, o.state.count, o.state.pageIndex, o.state.profiles, sel, c, w, before);
    }
  }

  /**
    The exception `scrape_team_page` raises on a page, if any: the selector
    inference fails, or the selector it builds is one the browser refuses.
  */
  function ScrapeError(t: Tree, nameSet: set<string>, v: Vocabulary): (r: Option<Error>)
    requires Valid(t)
    ensures r.Some? ==> r.value == NotEnoughNames || r.value == NoParent || r.value == InvalidSelector
  {
    var pick := Util.PickPair(t, Util.NameElements(t, nameSet, v.nameLimit), 0, None);
    if pick.Failure? then Some(pick.error)
    else if !Util.SelectorUsable(t, pick.value.n1, pick.value.n2) then Some(InvalidSelector)
    else None
  }

  // ---------------------------------------------------------------------------
  // Failure counting

  /** The number of configurations whose scrape raised. */
  function Failures(outcomes: seq<bool>): (r: nat)
    ensures r <= |outcomes|
  {
    if outcomes == [] then 0
    else Failures(outcomes[..|outcomes| - 1]) + (if outcomes[|outcomes| - 1] then 0 else 1)
  }

  /** Counting failures up to the number of configurations is the same as every one failing. */
  lemma {:induction false} FailuresAll(outcomes: seq<bool>)
    ensures Failures(outcomes) == |outcomes| <==> forall k :: 0 <= k < |outcomes| ==> !outcomes[k]
  {
    if outcomes != [] {
      var init := outcomes[..|outcomes| - 1];
      FailuresAll(init);
      assert forall k :: 0 <= k < |init| ==> init[k] == outcomes[k];
    }
  }

  /** One more outcome counts one more failure when it is one. */
  lemma FailuresSnoc(outcomes: seq<bool>, ok: bool)
    ensures Failures(outcomes + [ok]) == Failures(outcomes) + (if ok then 0 else 1)
  {
    assert (outcomes + [ok])[..|outcomes|] == outcomes;
  }

  // ---------------------------------------------------------------------------
  // What the configurations leave behind

  /** Where a scrape left the job: the page, the count, and the profiles it saved. */
  datatype After = After(page: PageState, count: int, got: seq<ProfileRecord>)

  /**
    What `scrape_team_page` does from page `p` with count `count`: it goes through
    (`ok`) exactly when it raises nothing, and then ends where the passes with a
    selector built from the first converging pair end; when it raises, nothing
    changes.
  */
  ghost predicate ScrapeOutcome(p: PageState, count: int, c: Context, w: World, ok: bool, e: After)
    requires PageOk(p) && WorldOk(w)
  {
    var t := p.current.dom;
    && (ok <==> ScrapeError(t, c.nameSet, c.v).None?)
    && (!ok ==> e == After(p, count, []))
    && (ok ==>
          var pick := Util.PickPair(t, Util.NameElements(t, c.nameSet, c.v.nameLimit), 0, None);
          && pick.Success?
          && exists sel :: && IsWellFormed(sel) && Util.SelectorFor(t, pick.value.n1, pick.value.n2, sel)
                           && var end := Passes(p, count, 1, [], sel, c, w);
                              end.page == e.page && end.count == e.count && end.profiles == e.got)
  }

  /** The state the `k`-th configuration starts from: the start, or where the previous one ended. */
  function Before(start: After, ends: seq<After>, k: nat): After
    requires k <= |ends|
  {
    if k == 0 then start else ends[k - 1]
  }

  /** The profiles saved by the scrapes in `ends`, in order. */
  function Gathered(ends: seq<After>): seq<ProfileRecord>
  {
    if ends == [] then [] else Gathered(ends[..|ends| - 1]) + ends[|ends| - 1].got
  }

  /**
    One configuration from page `from` with count `count`: the search lands on
    page `p`, whose scrape has outcome `ok` and ends at `e`. The scrape outcome
    sits under a `forall` triggered only by itself, as in `Processed`.
  */
  ghost predicate ConfigRan(from: PageState, count: int, config: Config, c: Context, w: World, ok: bool, p: PageState, e: After)
    requires WorldOk(w)
  {
    && w.search(from, config) == Some(p) && PageOk(p)
    && forall e' {:trigger ScrapeOutcome(p, count, c, w, ok, e')} :: e' == e ==> ScrapeOutcome(p, count, c, w, ok, e')
  }

  /**
    The first `|ends|` configurations ran one after the other from `start`: each
    searched from the page the previous one left, landed on `tried[k]` and scraped
    it with outcome `outcomes[k]`, ending at `ends[k]`.
  */
  ghost predicate ConfigsRun(start: After, configs: seq<Config>, c: Context, w: World,
                             outcomes: seq<bool>, tried: seq<PageState>, ends: seq<After>)
    requires WorldOk(w)
  {
    && |outcomes| == |tried| == |ends| <= |configs|
    && forall k {:trigger ConfigRan(Before(start, ends, k).page, Before(start, ends, k).count, configs[k], c, w, outcomes[k], tried[k], ends[k])} ::
         0 <= k < |ends| ==>
           ConfigRan(Before(start, ends, k).page, Before(start, ends, k).count, configs[k], c, w, outcomes[k], tried[k], ends[k])
  }

  /**
    The configuration loop from `start`, ending in `fin` with result `r`: the
    configurations ran in turn; the loop stopped early exactly when a search found
    no button; it raised `NoEffectiveFilter` exactly when all of them ran and every
    scrape raised; the job ends where the last scrape left it, having saved what
    the scrapes saved.
  */
  ghost predicate ConfigsOutcome(start: After, configs: seq<Config>, c: Context, w: World, r: Result<(), Error>,
                                 outcomes: seq<bool>, tried: seq<PageState>, ends: seq<After>, fin: After)
    requires WorldOk(w)
  {
    && ConfigsRun(start, configs, c, w, outcomes, tried, ends)
    && fin == After(Before(start, ends, |ends|).page, Before(start, ends, |ends|).count, Gathered(ends))
    && (r.Success? || r == Failure(ClickOnNothing) || r == Failure(NoEffectiveFilter))
    && (r == Failure(ClickOnNothing) <==> |ends| < |configs|)
    && (|ends| < |configs| ==> w.search(fin.page, configs[|ends|]).None?)
    && (r == Failure(NoEffectiveFilter) <==> |ends| == |configs| && forall k :: 0 <= k < |outcomes| ==> !outcomes[k])
  }

  /** How the configuration loop's result follows from how far it got. */
  lemma ConfigsOutcomeOf(start: After, configs: seq<Config>, c: Context, w: World, r: Result<(), Error>,
                         outcomes: seq<bool>, tried: seq<PageState>, ends: seq<After>, fin: After)
    requires WorldOk(w) && ConfigsRun(start, configs, c, w, outcomes, tried, ends)
    requires fin == After(Before(start, ends, |ends|).page, Before(start, ends, |ends|).count, Gathered(ends))
    requires |ends| < |configs| ==> r == Failure(ClickOnNothing) && w.search(fin.page, configs[|ends|]).None?
    requires |ends| == |configs| ==>
      r == if forall k :: 0 <= k < |outcomes| ==> !outcomes[k] then Failure(NoEffectiveFilter) else Success(())
    ensures ConfigsOutcome(start, configs, c, w, r, outcomes, tried, ends, fin)
  {
  }

  lemma AppendAssoc(a: seq<ProfileRecord>, b: seq<ProfileRecord>, c: seq<ProfileRecord>)
    ensures a + b + c == a + (b + c)
  {
  }

  lemma AppendedPart(a: seq<ProfileRecord>, b: seq<ProfileRecord>)
    ensures (a + b)[|a|..] == b
  {
  }

  /** One more configuration run extends the chain. */
  lemma ConfigsRunSnoc(start: After, configs: seq<Config>, c: Context, w: World,
                       outcomes: seq<bool>, tried: seq<PageState>, ends: seq<After>,
                       from: PageState, count: int, ok: bool, p: PageState, e: After)
    requires WorldOk(w) && ConfigsRun(start, configs, c, w, outcomes, tried, ends) && |ends| < |configs|
    requires from == Before(start, ends, |ends|).page && count == Before(start, ends, |ends|).count
    requires ConfigRan(from, count, configs[|ends|], c, w, ok, p, e)
    ensures ConfigsRun(start, configs, c, w, outcomes + [ok], tried + [p], ends + [e])
    ensures Before(start, ends + [e], |ends| + 1) == e
  {
    var os, ts, es := outcomes + [ok], tried + [p], ends + [e];
    forall k | 0 <= k < |es|
      ensures ConfigRan(Before(start, es, k).page, Before(start, es, k).count, configs[k], c, w, os[k], ts[k], es[k])
    {
      var b := Before(start, ends, k);
      assert Before(start, es, k) == b;
      if k < |ends| {
        assert ConfigRan(b.page, b.count, configs[k], c, w, outcomes[k], tried[k], ends[k]);
      }
    }
  }

  /** The profiles of one more scrape come after those of the earlier ones. */
  lemma GatheredSnoc(ends: seq<After>, e: After)
    ensures Gathered(ends + [e]) == Gathered(ends) + e.got
  {
    assert (ends + [e])[..|ends|] == ends;
  }

  /**
    What `process_team_page` does with the team page `team`, starting from count
    `count`: with key selects, the configuration loop over every configuration;
    for a LAW firm without one, the search-box failure count decides; for any
    other firm without one, a single scrape of the team page as it is.
    The two outcome predicates sit under a `forall` over the final state that is
    triggered only by the predicate itself, so that a caller who needs only the
    error facts does not unfold them.
  */
  ghost predicate Processed(team: PageState, count: int, c: Context, w: World, r: Result<(), Error>,
                            outcomes: seq<bool>, tried: seq<PageState>, ends: seq<After>, fin: After)
    requires PageOk(team) && WorldOk(w)
  {
    var ks := KeySelectsOf(team.current.dom, c.v);
    && (ks != [] ==>
          forall e {:trigger ConfigsOutcome(After(team, count, []), ConfigsFrom(ks, 0, []), c, w, r, outcomes, tried, ends, e)} ::
            e == fin ==> ConfigsOutcome(After(team, count, []), ConfigsFrom(ks, 0, []), c, w, r, outcomes, tried, ends, e))
    && (ks == [] && c.firmType == Law ==>
          && (r.Failure? <==> w.searchBoxFailures == |c.v.lawFirmKeyPractices|)
          && (r.Failure? ==> r.error == NoEffectiveSearch))
    && (ks == [] && c.firmType == Investment ==>
          var err := ScrapeError(team.current.dom, c.nameSet, c.v);
          && (r.Failure? <==> err.Some?)
          && (r.Failure? ==> r.error == err.value)
          && forall e {:trigger ScrapeOutcome(team, count, c, w, r.Success?, e)} ::
               e == fin ==> ScrapeOutcome(team, count, c, w, r.Success?, e))
  }

  /** The three cases of `process_team_page` together. */
  lemma ProcessedCases(team: PageState, count: int, c: Context, w: World, r: Result<(), Error>,
                       outcomes: seq<bool>, tried: seq<PageState>, ends: seq<After>, fin: After)
    requires PageOk(team) && WorldOk(w)
    requires var ks := KeySelectsOf(team.current.dom, c.v);
      ks != [] ==> ConfigsOutcome(After(team, count, []), ConfigsFrom(ks, 0, []), c, w, r, outcomes, tried, ends, fin)
    requires KeySelectsOf(team.current.dom, c.v) == [] && c.firmType == Law ==>
      && (r.Failure? <==> w.searchBoxFailures == |c.v.lawFirmKeyPractices|)
      && (r.Failure? ==> r.error == NoEffectiveSearch)
    requires var err := ScrapeError(team.current.dom, c.nameSet, c.v);
      KeySelectsOf(team.current.dom, c.v) == [] && c.firmType == Investment ==>
        && (r.Failure? <==> err.Some?)
        && (r.Failure? ==> r.error == err.value)
        && ScrapeOutcome(team, count, c, w, r.Success?, fin)
    ensures Processed(team, count, c, w, r, outcomes, tried, ends, fin)
  {
  }

  // ---------------------------------------------------------------------------
  // The job

  class FirmJob {
    const domain: string
    const firmType: FirmType
    const limit: Limit
    var count: int
    var completed: bool
    var failed: bool
    var failReason: string
    var teamUrl: Option<string>
    /** The profiles handed to the database session, in order. */
    var saved: seq<ProfileRecord>

    /** The limit invariant: kept profiles never exceed the count or the limit. */
    predicate Inv()
      reads this
    {
      LimitKept(|saved|, count, limit)
    }

    function Ctx(nameSet: set<string>, v: Vocabulary): Context {
      Context(firmType, limit, nameSet, v)
    }

    constructor (domain: string, firmType: FirmType, limit: Limit)
      ensures this.domain == domain && this.firmType == firmType && this.limit == limit
      ensures count == 0 && !completed && !failed && failReason == "N/A"
      ensures teamUrl == None && saved == []
      ensures Inv()
    {
      this.domain := domain;
      this.firmType := firmType;
      this.limit := limit;
      count := 0;
      completed := false;
      failed := false;
      failReason := "N/A";
      teamUrl := None;
      saved := [];
    }

    /**
      The body of the candidate loop of `skim_team_page` up to the limit test: a new
      profile from candidate `e` of the page `t` (whose views are those of `t0`),
      counted when valid; `over` tells whether the count went over the limit, and
      otherwise the profile has its text lines too.
    */
    method TakeCandidate(nameSet: set<string>, page: Page, cands: seq<nat>, i: nat, v: Vocabulary, ghost t0: Tree)
      returns (profile: PersonalProfile, over: bool)
      requires Valid(t0) && i < |cands| && (forall k :: 0 <= k < |cands| ==> cands[k] < |t0.nodes|)
      requires page.Ok() && page.current.dom == MarkAll(t0, cands[..i])
      modifies this`count, page
      ensures fresh(profile)
      ensures count == old(count) + 1
      ensures over <==> limit.Bounded? && count > limit.n
      ensures page.Ok()
      ensures over ==> page.State() == old(page.State())
      ensures !over ==> page.State() == Loaded(old(page.current).(dom := MarkAll(t0, cands[..i + 1])), old(page.ahead))
      ensures !over ==> profile.Record() == PreviewRecords(t0, old(page.current.url), cands, Ctx(nameSet, v))[i]
    {
      var e := cands[i];
      var t := page.current.dom;
      var url := page.current.url;
      MarkPrefix(t0, cands, i);
      PreviewRecordsAt(t0, url, cands, Ctx(nameSet, v), i);
      MarkAllEffect(t0, cands[..i]);
      SameShapeViews(t0, t, e);
      profile, over := PreviewProfile(nameSet, t, url, e, v);
      if !over {
        page.Mark(e);
      }
    }

    /**
      The profile of candidate `e` of page `t` at `url`: counted, and, within the
      limit, given its text lines.
    */
    method PreviewProfile(nameSet: set<string>, t: Tree, url: string, e: nat, v: Vocabulary)
      returns (profile: PersonalProfile, over: bool)
      requires Valid(t) && e < |t.nodes|
      modifies this`count
      ensures fresh(profile)
      ensures count == old(count) + 1
      ensures over <==> limit.Bounded? && count > limit.n
      ensures !over ==> profile.Record() == PreviewRecord(t, url, e, Ctx(nameSet, v))
    {
      profile := new PersonalProfile(url, firmType);
      profile.UpdateWithPreviewElement(t, e);
      over := false;
      if profile.isInvalid != Some(true) {
        count := count + 1;
        if limit.Bounded? && count > limit.n {
          over := true;
          return;
        }
        var textNodesText := ChildTexts(t, e);
        profile.UpdateWithTextNodes(nameSet, textNodesText, v);
      }
    }

    /** One turn of the candidate loop: take candidate `i` and, within the limit, keep it. */
    method SkimOne(nameSet: set<string>, page: Page, cands: seq<nat>, i: nat, v: Vocabulary, ghost t0: Tree,
                   kept: seq<PersonalProfile>)
      returns (newProfiles: seq<PersonalProfile>, over: bool)
      requires Valid(t0) && i < |cands| && (forall k :: 0 <= k < |cands| ==> cands[k] < |t0.nodes|)
      requires page.Ok() && page.current.dom == MarkAll(t0, cands[..i])
      requires RecordsOf(kept) == PreviewRecords(t0, page.current.url, cands, Ctx(nameSet, v))[..i]
      requires Distinct(kept)
      modifies this`count, page
      ensures count == old(count) + 1
      ensures over <==> limit.Bounded? && count > limit.n
      ensures page.Ok()
      ensures over ==> page.State() == old(page.State())
      ensures !over ==> page.State() == Loaded(old(page.current).(dom := MarkAll(t0, cands[..i + 1])), old(page.ahead))
      ensures !over ==> RecordsOf(newProfiles) == PreviewRecords(t0, old(page.current.url), cands, Ctx(nameSet, v))[..i + 1]
      ensures over ==> newProfiles == kept
      ensures !over ==> |newProfiles| == |kept| + 1 && Distinct(newProfiles)
      ensures forall p :: p in newProfiles ==> p in kept || fresh(p)
    {
      var profile;
      profile, over := TakeCandidate(nameSet, page, cands, i, v, t0);
      newProfiles := kept;
      if !over {
        ghost var recs := PreviewRecords(t0, old(page.current.url), cands, Ctx(nameSet, v));
        RecordsOfSnoc(kept, profile);
        PrefixSnoc(recs, i);
        DistinctSnoc(kept, profile);
        newProfiles := kept + [profile];
      }
    }

    /**
      The candidate loop of `skim_team_page` over `cands` on the page: counts each
      candidate, keeps and marks those within the limit, and stops at the first one
      over it.
    */
    method SkimCandidates(nameSet: set<string>, page: Page, cands: seq<nat>, v: Vocabulary)
      returns (newProfiles: seq<PersonalProfile>)
      requires page.Ok() && forall k :: 0 <= k < |cands| ==> cands[k] < |page.current.dom.nodes|
      modifies this`count, page
      ensures page.Ok()
      ensures var m := Accepted(old(count), limit, |cands|);
        && |newProfiles| == m
        && RecordsOf(newProfiles) == PreviewRecords(old(page.current.dom), old(page.current.url), cands, Ctx(nameSet, v))[..m]
        && count == old(count) + m + (if m < |cands| then 1 else 0)
        && page.State() == Loaded(old(page.current).(dom := MarkAll(old(page.current.dom), cands[..m])), old(page.ahead))
      ensures forall p :: p in newProfiles ==> fresh(p)
      ensures Distinct(newProfiles)
    {
      ghost var c := Ctx(nameSet, v);
      newProfiles := [];
      var i := 0;
      while i < |cands|
        invariant i <= |cands|
        invariant limit.Bounded? && i > 0 ==> old(count) + i <= limit.n
        invariant page.Ok()
        invariant page.State() == Loaded(old(page.current).(dom := MarkAll(old(page.current.dom), cands[..i])), old(page.ahead))
        invariant count == old(count) + i
        invariant |newProfiles| == i
        invariant RecordsOf(newProfiles) == PreviewRecords(old(page.current.dom), old(page.current.url), cands, c)[..i]
        invariant forall p :: p in newProfiles ==> fresh(p)
        invariant Distinct(newProfiles)
      {
        var over;
        newProfiles, over := SkimOne(nameSet, page, cands, i, v, old(page.current.dom), newProfiles);
        if over {
          AcceptedStops(old(count), limit, |cands|, i);
          return;
        }
        i := i + 1;
      }
      AcceptedStops(old(count), limit, |cands|, i);
    }

    /**
      `skim_team_page`: a selector the browser refuses raises; otherwise one pass
      over the candidates, returning the new profiles.
    */
    method SkimTeamPage(nameSet: set<string>, page: Page, sel: Selector, v: Vocabulary)
      returns (r: Result<seq<PersonalProfile>, Error>)
      requires page.Ok()
      modifies this`count, page
      ensures page.Ok()
      ensures !IsWellFormed(sel) ==> r == Failure(InvalidSelector) && count == old(count) && page.State() == old(page.State())
      ensures IsWellFormed(sel) ==> r.Success?
      ensures r.Success? ==>
        var sk := Skim(old(page.current), sel, old(count), Ctx(nameSet, v));
        && RecordsOf(r.value) == sk.records
        && count == sk.count
        && page.State() == Loaded(old(page.current).(dom := sk.dom), old(page.ahead))
        && (forall p :: p in r.value ==> fresh(p))
        && Distinct(r.value)
    {
      if !IsWellFormed(sel) {
        return Failure(InvalidSelector);
      }
      var previewElements := FindAll(page.current.dom, Css(sel));
      var newProfiles := SkimCandidates(nameSet, page, previewElements, v);
      r := Success(newProfiles);
    }

    /**
      `get_next_if_exists`: click the first "more" or next-number anchor; the page
      index moves on only for a number. `moved` tells whether the click led anywhere.
    */
    method GetNextIfExists(page: Page, pageIndex: nat, exhausted: bool)
      returns (newIndex: nat, newExhausted: bool, moved: bool)
      requires page.Ok()
      modifies page
      ensures page.Ok()
      ensures match NextLink(old(page.current.dom), pageIndex)
        case None =>
          newIndex == pageIndex && newExhausted == exhausted && !moved && page.State() == old(page.State())
        case Some(link) =>
          && !newExhausted
          && newIndex == (if link.numbered then pageIndex + 1 else pageIndex)
          && (moved <==> old(page.ahead) != [])
          && (moved ==> page.State() == Loaded(Apply(old(page.current), old(page.ahead)[0]), old(page.ahead)[1..]))
          && (!moved ==> page.State() == old(page.State()))
    {
      var t := page.current.dom;
      var nextPageElements := FindAll(t, TagAnywhere("a"));
      newIndex, newExhausted, moved := pageIndex, exhausted, false;
      for i := 0 to |nextPageElements|
        invariant LinkAmong(t, nextPageElements[i..], pageIndex) == NextLink(t, pageIndex)
      {
        assert nextPageElements[i..][0] == nextPageElements[i] && nextPageElements[i..][1..] == nextPageElements[i + 1..];
        var text := Lower(t.nodes[nextPageElements[i]].text);
        if text == "more" {
          newExhausted := false;
          moved := page.Click();
          return;
        } else if text == NatToString(pageIndex + 1) {
          newExhausted := false;
          moved := page.Click();
          newIndex := pageIndex + 1;
          return;
        }
      }
      assert nextPageElements[|nextPageElements|..] == [];
    }

    /**
      One pass of the loop of `scrape_team_page`: skim, complete the new profiles
      from their own pages, stop at exactly `limit` profiles, else click the next
      link.
    */
    method ScrapePass(page: Page, nameSet: set<string>, v: Vocabulary, w: World, sel: Selector,
                      pageIndex: nat, profiles: seq<ProfileRecord>)
      returns (newIndex: nat, newProfiles: seq<ProfileRecord>, more: bool)
      requires page.Ok() && WorldOk(w) && IsWellFormed(sel)
      modifies this`count, page
      ensures page.Ok()
      ensures PassOnce(old(page.State()), old(count), pageIndex, profiles, sel, Ctx(nameSet, v), w)
        == Pass(Scraped(page.State(), count, newIndex, newProfiles), more)
    {
      var skimmed := SkimTeamPage(nameSet, page, sel, v);
      var done := CompleteProfiles(skimmed.value, w);
      newProfiles := profiles + done;
      newIndex, more := pageIndex, false;
      if limit.Bounded? && |newProfiles| == limit.n {
        return;
      }
      var exhausted, moved;
      newIndex, exhausted, moved := GetNextIfExists(page, pageIndex, true);
      more := !exhausted && moved;
    }

    /** The loop of `scrape_team_page`: passes until one ends it. */
    method RunPasses(page: Page, nameSet: set<string>, v: Vocabulary, w: World, sel: Selector)
      returns (profiles: seq<ProfileRecord>)
      requires page.Ok() && WorldOk(w) && IsWellFormed(sel)
      modifies this`count, page
      ensures page.Ok()
      ensures var end := Passes(old(page.State()), old(count), 1, [], sel, Ctx(nameSet, v), w);
        page.State() == end.page && count == end.count && profiles == end.profiles
    {
      ghost var end := Passes(page.State(), count, 1, [], sel, Ctx(nameSet, v), w);
      var pageIndex := 1;
      profiles := [];
      var more := true;
      while more
        invariant page.Ok()
        invariant more ==> Passes(page.State(), count, pageIndex, profiles, sel, Ctx(nameSet, v), w) == end
        invariant !more ==> Scraped(page.State(), count, pageIndex, profiles) == end
        decreases |page.ahead| + (if more then 1 else 0)
      {
        PassesStep(page.State(), count, pageIndex, profiles, sel, Ctx(nameSet, v), w);
        pageIndex, profiles, more := ScrapePass(page, nameSet, v, w, sel, pageIndex, profiles);
      }
    }

    /**
      `scrape_team_page`: infer the profile selector, then run passes until no link
      is left or exactly `limit` profiles were collected, and save them. Returns the
      selector used.
    */
    method ScrapeTeamPage(page: Page, nameSet: set<string>, v: Vocabulary, w: World) returns (r: Result<Selector, Error>)
      requires page.Ok() && WorldOk(w) && Inv()
      modifies this`count, this`saved, page
      ensures page.Ok() && Inv()
      ensures count >= old(count) && old(saved) <= saved
      ensures var t := old(page.current.dom);
        var err := ScrapeError(t, nameSet, v);
        && (r.Failure? <==> err.Some?)
        && (r.Failure? ==> r.error == err.value && count == old(count) && saved == old(saved) && page.State() == old(page.State()))
        && (r.Success? ==>
              var pick := Util.PickPair(t, Util.NameElements(t, nameSet, v.nameLimit), 0, None);
              && pick.Success? && IsWellFormed(r.value)
              && Util.SelectorFor(t, pick.value.n1, pick.value.n2, r.value)
              && var end := Passes(old(page.State()), old(count), 1, [], r.value, Ctx(nameSet, v), w);
                 page.State() == end.page && count == end.count && saved == old(saved) + end.profiles)
      ensures ScrapeOutcome(old(page.State()), old(count), Ctx(nameSet, v), w, r.Success?,
                            After(page.State(), count, saved[|old(saved)|..]))
    {
      var inferred := Util.GetProfileSelector(page.current.dom, nameSet, v.nameLimit);
      if inferred.Failure? {
        return Failure(inferred.error);
      }
      var sel := inferred.value;
      ghost var pick := Util.PickPair(page.current.dom, Util.NameElements(page.current.dom, nameSet, v.nameLimit), 0, None);
      Util.SelectorForWellFormed(page.current.dom, pick.value.n1, pick.value.n2, sel);
      if !IsWellFormed(sel) {
        var skimmed := SkimTeamPage(nameSet, page, sel, v);
        return Failure(skimmed.error);
      }
      PassesKeepLimit(page.State(), count, 1, [], sel, Ctx(nameSet, v), w, |saved|);
      var profiles := RunPasses(page, nameSet, v, w, sel);
      saved := saved + profiles;
      r := Success(sel);
      assert saved[|old(saved)|..] == profiles;
    }

    /**
      One configuration of `process_team_page`: pick its options and click the
      search button (there may be none, and the click then raises), then scrape the
      results; `ok` tells whether the scrape went through.
    */
    method TryConfig(page: Page, nameSet: set<string>, v: Vocabulary, w: World, config: Config)
      returns (r: Result<bool, Error>)
      requires page.Ok() && WorldOk(w) && Inv()
      modifies this`count, this`saved, page
      ensures page.Ok() && Inv()
      ensures count >= old(count) && old(saved) <= saved
      ensures var found := w.search(old(page.State()), config);
        && (r.Failure? <==> found.None?)
        && (r.Failure? ==> r.error == ClickOnNothing && page.State() == old(page.State()) && count == old(count) && saved == old(saved))
        && (r.Success? ==> ConfigRan(old(page.State()), old(count), config, Ctx(nameSet, v), w, r.value, found.value,
                                     After(page.State(), count, saved[|old(saved)|..])))
    {
      var found := w.search(page.State(), config);
      if found.None? {
        return Failure(ClickOnNothing);
      }
      page.Load(found.value);
      var scraped := ScrapeTeamPage(page, nameSet, v, w);
      r := Success(scraped.Success?);
    }

    /**
      One turn of the configuration loop: configuration `|ends|` searched from
      where the previous one left the page, then scraped. A missing search button
      changes nothing.
    */
    method NextConfig(page: Page, nameSet: set<string>, v: Vocabulary, w: World, configs: seq<Config>, i: nat,
                      ghost start: After, ghost outcomes: seq<bool>, ghost tried: seq<PageState>, ghost ends: seq<After>)
      returns (ok: Result<bool, Error>, ghost p: PageState, ghost e: After)
      requires page.Ok() && WorldOk(w) && Inv()
      requires ConfigsRun(start, configs, Ctx(nameSet, v), w, outcomes, tried, ends) && i == |ends| < |configs|
      requires page.State() == Before(start, ends, |ends|).page && count == Before(start, ends, |ends|).count
      modifies this`count, this`saved, page
      ensures page.Ok() && Inv()
      ensures count >= old(count) && old(saved) <= saved
      ensures ok.Failure? ==>
        && ok.error == ClickOnNothing && w.search(old(page.State()), configs[|ends|]).None?
        && page.State() == old(page.State()) && count == old(count) && saved == old(saved)
      ensures ok.Success? ==>
        && ConfigsRun(start, configs, Ctx(nameSet, v), w, outcomes + [ok.value], tried + [p], ends + [e])
        && page.State() == e.page && count == e.count && saved == old(saved) + e.got
        && Before(start, ends + [e], |ends| + 1) == e
        && Gathered(ends + [e]) == Gathered(ends) + e.got
    {
      ghost var before := page.State();
      ok := TryConfig(page, nameSet, v, w, configs[i]);
      p, e := before, start;
      if ok.Success? {
        p := w.search(before, configs[i]).value;
        e := After(page.State(), count, saved[|old(saved)|..]);
        ConfigsRunSnoc(start, configs, Ctx(nameSet, v), w, outcomes, tried, ends, before, old(count), ok.value, p, e);
        GatheredSnoc(ends, e);
        assert ConfigsRun(start, configs, Ctx(nameSet, v), w, outcomes + [ok.value], tried + [p], ends + [e]);
      }
    }

    /**
      The configuration loop of `process_team_page`: each configuration is tried in
      turn; a missing search button ends the loop with its error, and when every
      scrape raised the loop raises `NoEffectiveFilter`. `outcomes` records which
      scrapes went through, `tried` the page each search led to, `ends` where each
      scrape left the job.
    */
    method RunConfigs(page: Page, nameSet: set<string>, v: Vocabulary, w: World, configs: seq<Config>)
      returns (r: Result<(), Error>, ghost outcomes: seq<bool>, ghost tried: seq<PageState>, ghost ends: seq<After>)
      requires page.Ok() && WorldOk(w) && Inv()
      modifies this`count, this`saved, page
      ensures page.Ok() && Inv()
      ensures count >= old(count) && old(saved) <= saved
      ensures ConfigsOutcome(After(old(page.State()), old(count), []), configs, Ctx(nameSet, v), w, r, outcomes, tried, ends,
                             After(page.State(), count, saved[|old(saved)|..]))
    {
      ghost var start := After(page.State(), count, []);
      var failedConfigCount := 0;
      outcomes, tried, ends := [], [], [];
      assert saved == old(saved) + Gathered(ends);
      for i := 0 to |configs|
        invariant page.Ok() && Inv()
        invariant count >= old(count) && old(saved) <= saved
        invariant |tried| == |outcomes| == |ends| == i
        invariant failedConfigCount == Failures(outcomes)
        invariant ConfigsRun(start, configs, Ctx(nameSet, v), w, outcomes, tried, ends)
        invariant page.State() == Before(start, ends, i).page && count == Before(start, ends, i).count
        invariant saved == old(saved) + Gathered(ends)
      {
        ghost var savedBefore := saved;
        var ok;
        ghost var p, e;
        ok, p, e := NextConfig(page, nameSet, v, w, configs, i, start, outcomes, tried, ends);
        if ok.Failure? {
          r := Failure(ok.error);
          AppendedPart(old(saved), Gathered(ends));
          ConfigsOutcomeOf(After(old(page.State()), old(count), []), configs, Ctx(nameSet, v), w, r, outcomes, tried, ends,
                           After(page.State(), count, saved[|old(saved)|..]));
          return;
        }
        FailuresSnoc(outcomes, ok.value);
        AppendAssoc(old(saved), Gathered(ends), e.got);
        outcomes, tried, ends := outcomes + [ok.value], tried + [p], ends + [e];
        if !ok.value {
          failedConfigCount := failedConfigCount + 1;
        }
      }
      FailuresAll(outcomes);
      r := if failedConfigCount == |configs| then Failure(NoEffectiveFilter) else Success(());
      AppendedPart(old(saved), Gathered(ends));
      ConfigsOutcomeOf(After(old(page.State()), old(count), []), configs, Ctx(nameSet, v), w, r, outcomes, tried, ends,
                       After(page.State(), count, saved[|old(saved)|..]));
    }

    /**
      `process_team_page`: load the team page, collect its key selects and every
      search configuration over them. With some select to filter on, run the
      configurations; without one, a LAW firm falls back on the search box (only
      its failure count is modelled), any other firm is scraped as it is.
    */
    method ProcessTeamPage(page: Page, nameSet: set<string>, v: Vocabulary, w: World)
      returns (r: Result<(), Error>, ghost outcomes: seq<bool>, ghost tried: seq<PageState>, ghost ends: seq<After>)
      requires teamUrl.Some? && WorldOk(w) && Inv()
      modifies this`count, this`saved, page
      ensures page.Ok() && Inv()
      ensures count >= old(count) && old(saved) <= saved
      ensures var team := w.load(teamUrl.value);
        var ks := KeySelectsOf(team.current.dom, v);
        ks != [] ==> ConfigsOutcome(After(team, old(count), []), ConfigsFrom(ks, 0, []), Ctx(nameSet, v), w, r,
                                    outcomes, tried, ends, After(page.State(), count, saved[|old(saved)|..]))
      ensures var team := w.load(teamUrl.value);
        KeySelectsOf(team.current.dom, v) == [] && firmType == Law ==>
          && (r.Failure? <==> w.searchBoxFailures == |v.lawFirmKeyPractices|)
          && (r.Failure? ==> r.error == NoEffectiveSearch)
      ensures var team := w.load(teamUrl.value);
        var err := ScrapeError(team.current.dom, nameSet, v);
        KeySelectsOf(team.current.dom, v) == [] && firmType == Investment ==>
          && (r.Failure? <==> err.Some?)
          && (r.Failure? ==> r.error == err.value)
          && ScrapeOutcome(team, old(count), Ctx(nameSet, v), w, r.Success?, After(page.State(), count, saved[|old(saved)|..]))
    {
      var team := w.load(teamUrl.value);
      page.Load(team);
      var searchConfigs := SearchConfigsOf(page.current.dom, v);
      outcomes, tried, ends := [], [], [];
      if !(|searchConfigs| == 1 && searchConfigs[0] == []) {
        r, outcomes, tried, ends := RunConfigs(page, nameSet, v, w, searchConfigs);
      } else if firmType == Law {
        r := if w.searchBoxFailures == |v.lawFirmKeyPractices| then Failure(NoEffectiveSearch) else Success(());
      } else {
        var scraped := ScrapeTeamPage(page, nameSet, v, w);
        r := if scraped.Failure? then Failure(scraped.error) else Success(());
      }
    }

    /**
      `execute_team_page_strategy`: load the homepage, take the first anchor whose
      path has a team-page keyword, record its URL and process that page; with no
      such anchor, raise. What happened on the team page is `Processed` at the
      final state `fin`, stated under a `forall` that only `Processed` triggers.
    */
    method ExecuteTeamPageStrategy(page: Page, nameSet: set<string>, v: Vocabulary, w: World)
      returns (r: Result<(), Error>, ghost outcomes: seq<bool>, ghost tried: seq<PageState>, ghost ends: seq<After>)
      requires WorldOk(w) && Inv()
      modifies this`count, this`saved, this`teamUrl, page
      ensures page.Ok() && Inv()
      ensures count >= old(count) && old(saved) <= saved
      ensures var url := "http://" + domain;
        var found := TeamPageUrl(w.load(url).current.dom, url, TeamPageKeywords(v, firmType), w);
        && (found.None? ==> r == Failure(TeamPageNotFound) && teamUrl == old(teamUrl) && count == old(count) && saved == old(saved))
        && (found.Some? ==>
              && teamUrl == found && r != Failure(TeamPageNotFound)
              && forall fin {:trigger Processed(w.load(found.value), old(count), Ctx(nameSet, v), w, r, outcomes, tried, ends, fin)} ::
                   fin == After(page.State(), count, saved[|old(saved)|..]) ==>
                   Processed(w.load(found.value), old(count), Ctx(nameSet, v), w, r, outcomes, tried, ends, fin))
    {
      var url := "http://" + domain;
      var home := w.load(url);
      page.Load(home);
      var found := LocateTeamPage(page.current.dom, url, TeamPageKeywords(v, firmType), w);
      outcomes, tried, ends := [], [], [];
      if found.None? {
        r := Failure(TeamPageNotFound);
        return;
      }
      teamUrl := found;
      r, outcomes, tried, ends := ProcessTeamPage(page, nameSet, v, w);
      ProcessedCases(w.load(found.value), old(count), Ctx(nameSet, v), w, r, outcomes, tried, ends,
                     After(page.State(), count, saved[|old(saved)|..]));
    }

    /**
      `execute`: try the team-page strategy; when it raises, try the sitemap
      strategy (its outcome is `w.sitemapOk`), and when that raises too the job
      fails with the team strategy's message. The job is completed either way.
      `teamResult` and the final state are the team-page strategy's, as
      `ExecuteTeamPageStrategy` states them.
    */
    method Execute(page: Page, nameSet: set<string>, v: Vocabulary, w: World)
      returns (teamResult: Result<(), Error>, ghost outcomes: seq<bool>, ghost tried: seq<PageState>, ghost ends: seq<After>)
      requires WorldOk(w) && Inv()
      modifies this`count, this`saved, this`teamUrl, this`completed, this`failed, this`failReason, page
      ensures Inv() && completed
      ensures count >= old(count) && old(saved) <= saved
      ensures var url := "http://" + domain;
        var found := TeamPageUrl(w.load(url).current.dom, url, TeamPageKeywords(v, firmType), w);
        && (found.None? ==> teamResult == Failure(TeamPageNotFound) && teamUrl == old(teamUrl) && count == old(count) && saved == old(saved))
        && (found.Some? ==>
              && teamUrl == found && teamResult != Failure(TeamPageNotFound)
              && forall fin {:trigger Processed(w.load(found.value), old(count), Ctx(nameSet, v), w, teamResult, outcomes, tried, ends, fin)} ::
                   fin == After(page.State(), count, saved[|old(saved)|..]) ==>
                   Processed(w.load(found.value), old(count), Ctx(nameSet, v), w, teamResult, outcomes, tried, ends, fin))
      ensures teamResult.Failure? && !w.sitemapOk ==> failed && failReason == Message(teamResult.error)
      ensures !(teamResult.Failure? && !w.sitemapOk) ==> failed == old(failed) && failReason == old(failReason)
    {
      teamResult, outcomes, tried, ends := ExecuteTeamPageStrategy(page, nameSet, v, w);
      if teamResult.Failure? && !w.sitemapOk {
        failed := true;
        failReason := Message(teamResult.error);
      }
      completed := true;
    }
  }
}
