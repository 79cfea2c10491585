/**
  The contact record (`PersonalProfile` in models.py): three `;`-joined contact
  fields filled from the anchors of a page element, and a name and key-person
  flag guessed from its text lines.
*/
module Profiles {
  import opened Wrappers
  import opened Strings
  import opened Constants
  import opened Dom
  import Util

  // ---------------------------------------------------------------------------
  // The `;`-joined contact fields

  /** One `add_*` on a field: the value itself on an empty field, else after a ';'. */
  function Appended(field: string, value: string): string {
    if field == "" then value else field + ";" + value
  }

  /** `add_*` applied to `values` in order. */
  function AppendAll(field: string, values: seq<string>): string
    decreases |values|
  {
    if values == [] then field
    else Appended(AppendAll(field, values[..|values| - 1]), values[|values| - 1])
  }

  /** The parts a field holds before further values are appended: none for "". */
  function Seed(field: string): seq<string> {
    if field == "" then [] else [field]
  }

  /** Appending non-empty values gives the ';'-join of the field and the values. */
  lemma {:induction false} AppendAllIsJoin(field: string, values: seq<string>)
    requires forall v :: v in values ==> v != ""
    ensures AppendAll(field, values) == Join(";", Seed(field) + values)
    decreases |values|
  {
    if values != [] {
      var init := values[..|values| - 1];
      var v := values[|values| - 1];
      assert values == init + [v];
      forall w | w in init ensures w != "" {
        assert w in values;
      }
      AppendAllIsJoin(field, init);
      var parts := Seed(field) + init;
      assert Seed(field) + values == parts + [v];
      forall p | p in parts ensures p != "" {
        if p !in Seed(field) {
          assert p in init;
        }
      }
      JoinEmptyIff(";", parts);
      if parts != [] {
        JoinSnoc(";", parts, v);
      } else {
        assert Seed(field) + values == [v];
      }
    }
  }

  /**
    The contact-field round trip: starting from the empty field, splitting on ';'
    gives back the appended values in order, when they are non-empty and ';'-free.
  */
  lemma FieldRoundTrip(values: seq<string>)
    requires values != []
    requires forall v :: v in values ==> v != "" && ';' !in v
    ensures SplitOn(AppendAll("", values), ';') == values
  {
    AppendAllIsJoin("", values);
    assert Seed("") + values == values;
    SplitJoin(values, ';');
  }

  /** Appending `v` and then `rest` is appending `[v] + rest`. */
  lemma {:induction false} AppendAllCons(field: string, v: string, rest: seq<string>)
    ensures AppendAll(field, [v] + rest) == AppendAll(Appended(field, v), rest)
    decreases |rest|
  {
    if rest != [] {
      var values := [v] + rest;
      assert values[..|values| - 1] == [v] + rest[..|rest| - 1];
      AppendAllCons(field, v, rest[..|rest| - 1]);
    }
  }

  /** Appending to a non-empty field keeps it as the head, followed by nothing or a ';'. */
  lemma {:induction false} AppendAllHead(head: string, values: seq<string>)
    requires head != ""
    ensures |AppendAll(head, values)| >= |head| && AppendAll(head, values)[..|head|] == head
    ensures |AppendAll(head, values)| > |head| ==> AppendAll(head, values)[|head|] == ';'
    decreases |values|
  {
    if values != [] {
      var init := values[..|values| - 1];
      AppendAllHead(head, init);
      var f := AppendAll(head, init);
      assert AppendAll(head, values) == f + ";" + values[|values| - 1];
      assert (f + ";" + values[|values| - 1])[..|f|] == f;
    }
  }

  /**
    The first part of a field filled from the empty field is the first appended value,
    when that one is non-empty and ';'-free, whatever follows it.
  */
  lemma FirstPart(values: seq<string>)
    requires values != [] && values[0] != "" && ';' !in values[0]
    ensures SplitOn(AppendAll("", values), ';')[0] == values[0]
  {
    var head := values[0];
    assert values == [head] + values[1..];
    AppendAllCons("", head, values[1..]);
    var f := AppendAll(head, values[1..]);
    AppendAllHead(head, values[1..]);
    if |f| == |head| {
      assert f == head;
      SplitOnFree(head, ';');
    } else {
      assert f == head + [';'] + f[|head| + 1..];
      SplitOnCons(head, ';', f[|head| + 1..]);
    }
  }

  /** A field is non-empty exactly when it was, or some non-empty value was appended. */
  lemma {:induction false} AppendAllEmptyIff(field: string, values: seq<string>)
    ensures AppendAll(field, values) == "" <==> field == "" && forall w :: w in values ==> w == ""
    decreases |values|
  {
    if values != [] {
      var init := values[..|values| - 1];
      var last := values[|values| - 1];
      assert values == init + [last];
      AppendAllEmptyIff(field, init);
      var before := AppendAll(field, init);
      assert AppendAll(field, values) == Appended(before, last);
      if before != "" {
        assert |AppendAll(field, values)| > |before|;
        if field == "" {
          var w :| w in init && w != "";
          assert w in values;
        }
      } else {
        assert AppendAll(field, values) == last;
        assert forall w :: w in values ==> w in init || w == last;
        assert last in values;
      }
    }
  }

  // ---------------------------------------------------------------------------
  // Anchor classification

  /** Which contact field an href goes to. */
  datatype Kind = LinkedIn | Email | Other

  /** "linkedin" or "linked.in" wins over "mailto"; everything else is another link. */
  function Classify(href: string): Kind {
    if Contains(href, "linkedin") || Contains(href, "linked.in") then LinkedIn
    else if Contains(href, "mailto") then Email
    else Other
  }

  /** The present hrefs of `hrefs` that go to field `k`, in anchor order. */
  function OfKind(hrefs: seq<Option<string>>, k: Kind): (r: seq<string>)
    ensures forall v :: v in r ==> Classify(v) == k && Some(v) in hrefs
    decreases |hrefs|
  {
    if hrefs == [] then []
    else
      var init := OfKind(hrefs[..|hrefs| - 1], k);
      var last := hrefs[|hrefs| - 1];
      if last.Some? && Classify(last.value) == k then init + [last.value] else init
  }

  /** The present hrefs, in anchor order. */
  function Present(hrefs: seq<Option<string>>): seq<string>
    decreases |hrefs|
  {
    if hrefs == [] then []
    else
      var init := Present(hrefs[..|hrefs| - 1]);
      var last := hrefs[|hrefs| - 1];
      if last.Some? then init + [last.value] else init
  }

  /**
    Every present href lands in exactly one of the three fields (as a multiset the
    three lists make up the present hrefs); absent hrefs are skipped.
  */
  lemma {:induction false} ClassifyPartitions(hrefs: seq<Option<string>>)
    ensures multiset(Present(hrefs)) ==
      multiset(OfKind(hrefs, LinkedIn)) + multiset(OfKind(hrefs, Email)) + multiset(OfKind(hrefs, Other))
    decreases |hrefs|
  {
    if hrefs != [] {
      ClassifyPartitions(hrefs[..|hrefs| - 1]);
    }
  }

  /**
    Classification keeps document order: the hrefs of earlier anchors come first in
    each field.
  */
  lemma {:induction false} OfKindAppend(a: seq<Option<string>>, b: seq<Option<string>>, k: Kind)
    ensures OfKind(a + b, k) == OfKind(a, k) + OfKind(b, k)
    decreases |b|
  {
    if b == [] {
      assert a + b == a;
    } else {
      var b' := b[..|b| - 1];
      assert (a + b)[..|a + b| - 1] == a + b';
      assert (a + b)[|a + b| - 1] == b[|b| - 1];
      OfKindAppend(a, b', k);
    }
  }

  /** An href containing "linkedin" or "linked.in" never reaches the e-mail field. */
  lemma LinkedInPrecedence(hrefs: seq<Option<string>>, v: string)
    requires Contains(v, "linkedin") || Contains(v, "linked.in")
    requires Some(v) in hrefs
    ensures v in OfKind(hrefs, LinkedIn)
    ensures v !in OfKind(hrefs, Email) && v !in OfKind(hrefs, Other)
  {
    KindMembership(hrefs, v);
  }

  /** A present href is in the list of its own kind and of no other. */
  lemma {:induction false} KindMembership(hrefs: seq<Option<string>>, v: string)
    requires Some(v) in hrefs
    ensures v in OfKind(hrefs, Classify(v))
    ensures forall k :: k != Classify(v) ==> v !in OfKind(hrefs, k)
    decreases |hrefs|
  {
    var init := hrefs[..|hrefs| - 1];
    if hrefs[|hrefs| - 1] != Some(v) {
      assert hrefs == init + [hrefs[|hrefs| - 1]];
      KindMembership(init, v);
    }
  }

  // ---------------------------------------------------------------------------
  // Name and key-person scoring

  /** `token.lower()` for each token. */
  function LowerAll(tokens: seq<string>): (r: seq<string>)
    ensures |r| == |tokens|
    ensures forall i :: 0 <= i < |tokens| ==> r[i] == Lower(tokens[i])
  {
    seq(|tokens|, i requires 0 <= i < |tokens| => Lower(tokens[i]))
  }

  /** The name score of a line: tokens whose lower case is a known name, when there are at most five. */
  function NameScore(line: string, nameSet: set<string>): nat {
    var tokens := Tokens(line);
    if |tokens| <= 5 then Util.CountIn(LowerAll(tokens), nameSet) else 0
  }

  /** `namescore > 0.20 * len(tokens)` in integers: more than a fifth of the tokens are names. */
  predicate IsNameLine(line: string, nameSet: set<string>) {
    5 * NameScore(line, nameSet) > |Tokens(line)|
  }

  /** All lines of the text nodes, node by node: `splitlines()` of each. */
  function LinesOf(texts: seq<string>): seq<string>
    decreases |texts|
  {
    if texts == [] then [] else LinesOf(texts[..|texts| - 1]) + SplitLines(texts[|texts| - 1])
  }

  /** The name after scanning `lines`: the last name line, or `name` when there is none. */
  function LastName(name: Option<string>, lines: seq<string>, nameSet: set<string>): Option<string>
    decreases |lines|
  {
    if lines == [] then name
    else if IsNameLine(lines[|lines| - 1], nameSet) then Some(lines[|lines| - 1])
    else LastName(name, lines[..|lines| - 1], nameSet)
  }

  /** The key flag after scanning `lines`: set to true by a key line, never cleared. */
  function KeyAfter(isKey: Option<bool>, lines: seq<string>, keyList: seq<string>): Option<bool>
    decreases |lines|
  {
    if lines == [] then isKey
    else if Lower(lines[|lines| - 1]) in keyList then Some(true)
    else KeyAfter(isKey, lines[..|lines| - 1], keyList)
  }

  /** The lines of the first `i + 1` texts are those of the first `i` and then those of text `i`. */
  lemma LinesOfSnoc(texts: seq<string>, i: nat)
    requires i < |texts|
    ensures LinesOf(texts[..i + 1]) == LinesOf(texts[..i]) + SplitLines(texts[i])
  {
    assert texts[..i + 1][..i] == texts[..i];
  }

  /** Scanning `a` then `b` is scanning `a + b`. */
  lemma {:induction false} LastNameAppend(name: Option<string>, a: seq<string>, b: seq<string>, nameSet: set<string>)
    ensures LastName(name, a + b, nameSet) == LastName(LastName(name, a, nameSet), b, nameSet)
    decreases |b|
  {
    if b == [] {
      assert a + b == a;
    } else {
      assert (a + b)[..|a + b| - 1] == a + b[..|b| - 1];
      LastNameAppend(name, a, b[..|b| - 1], nameSet);
    }
  }

  lemma {:induction false} KeyAfterAppend(isKey: Option<bool>, a: seq<string>, b: seq<string>, keyList: seq<string>)
    ensures KeyAfter(isKey, a + b, keyList) == KeyAfter(KeyAfter(isKey, a, keyList), b, keyList)
    decreases |b|
  {
    if b == [] {
      assert a + b == a;
    } else {
      assert (a + b)[..|a + b| - 1] == a + b[..|b| - 1];
      KeyAfterAppend(isKey, a, b[..|b| - 1], keyList);
    }
  }

  /**
    The last name line wins: the name is unchanged when no line qualifies (`i` is
    -1), and otherwise it is qualifying line `i`, after which no line qualifies.
  */
  lemma {:induction false} LastNameWins(name: Option<string>, lines: seq<string>, nameSet: set<string>) returns (i: int)
    ensures -1 <= i < |lines|
    ensures i == -1 ==> LastName(name, lines, nameSet) == name
    ensures i == -1 ==> forall j :: 0 <= j < |lines| ==> !IsNameLine(lines[j], nameSet)
    ensures 0 <= i ==> IsNameLine(lines[i], nameSet) && LastName(name, lines, nameSet) == Some(lines[i])
    ensures forall j :: i < j < |lines| ==> !IsNameLine(lines[j], nameSet)
    decreases |lines|
  {
    if lines == [] {
      i := -1;
    } else if IsNameLine(lines[|lines| - 1], nameSet) {
      i := |lines| - 1;
    } else {
      var init := lines[..|lines| - 1];
      i := LastNameWins(name, init, nameSet);
      assert forall j :: 0 <= j < |init| ==> init[j] == lines[j];
    }
  }

  /** The key flag ends `Some(true)` exactly when some lower-cased line is a key term, else it is unchanged. */
  lemma {:induction false} KeyAfterMeaning(isKey: Option<bool>, lines: seq<string>, keyList: seq<string>)
    ensures KeyAfter(isKey, lines, keyList) ==
      if exists i :: 0 <= i < |lines| && Lower(lines[i]) in keyList then Some(true) else isKey
    decreases |lines|
  {
    if lines != [] {
      var init := lines[..|lines| - 1];
      KeyAfterMeaning(isKey, init, keyList);
      if exists i :: 0 <= i < |init| && Lower(init[i]) in keyList {
        var i :| 0 <= i < |init| && Lower(init[i]) in keyList;
        assert lines[i] == init[i];
      }
      if exists i :: 0 <= i < |lines| && Lower(lines[i]) in keyList {
        var i :| 0 <= i < |lines| && Lower(lines[i]) in keyList;
        if i < |init| {
          assert init[i] == lines[i];
        }
      }
    }
  }

  /** The token loop of `update_with_text_nodes`: no score for more than five tokens. */
  method LineNameScore(tokens: seq<string>, nameSet: set<string>) returns (nameScore: nat)
    ensures nameScore <= |tokens|
    ensures nameScore == if |tokens| <= 5 then Util.CountIn(LowerAll(tokens), nameSet) else 0
  {
    nameScore := 0;
    if |tokens| <= 5 {
      for k := 0 to |tokens|
        invariant nameScore == Util.CountIn(LowerAll(tokens)[..k], nameSet)
      {
        assert LowerAll(tokens)[..k + 1][..k] == LowerAll(tokens)[..k];
        if Lower(tokens[k]) in nameSet {
          nameScore := nameScore + 1;
        }
      }
      assert LowerAll(tokens)[..|tokens|] == LowerAll(tokens);
    }
  }

  /** A line of more than five tokens, or of none, is never a name. */
  lemma NameLineNeedsFewTokens(line: string, nameSet: set<string>)
    requires IsNameLine(line, nameSet)
    ensures 1 <= |Tokens(line)| <= 5
    ensures NameScore(line, nameSet) >= 1
  {
  }

  // ---------------------------------------------------------------------------
  // The record

  /** The column values of a profile. */
  datatype ProfileRecord = ProfileRecord(
    location: string,
    firmType: FirmType,
    name: Option<string>,
    isKey: Option<bool>,
    emails: string,
    linkedins: string,
    others: string,
    isInvalid: Option<bool>)

  /** A fresh profile at `url`. */
  function NewRecord(url: string, firmType: FirmType): ProfileRecord {
    ProfileRecord(url, firmType, None, None, "", "", "", None)
  }

  /** The record after the anchor loop over `hrefs`. */
  function WithAnchors(p: ProfileRecord, hrefs: seq<Option<string>>): ProfileRecord {
    p.(linkedins := AppendAll(p.linkedins, OfKind(hrefs, LinkedIn)),
       emails := AppendAll(p.emails, OfKind(hrefs, Email)),
       others := AppendAll(p.others, OfKind(hrefs, Other)))
  }

  /** One more anchor: nothing for a missing href, else its field gains it. */
  lemma WithAnchorsSnoc(p: ProfileRecord, hrefs: seq<Option<string>>, h: Option<string>)
    ensures var q := WithAnchors(p, hrefs);
      && (h.None? ==> WithAnchors(p, hrefs + [h]) == q)
      && (h.Some? && Classify(h.value) == LinkedIn ==>
            WithAnchors(p, hrefs + [h]) == q.(linkedins := Appended(q.linkedins, h.value)))
      && (h.Some? && Classify(h.value) == Email ==>
            WithAnchors(p, hrefs + [h]) == q.(emails := Appended(q.emails, h.value)))
      && (h.Some? && Classify(h.value) == Other ==>
            WithAnchors(p, hrefs + [h]) == q.(others := Appended(q.others, h.value)))
  {
    assert (hrefs + [h])[..|hrefs|] == hrefs;
  }

  /** The record after `update_with_text_nodes`. */
  function WithTextNodes(p: ProfileRecord, texts: seq<string>, nameSet: set<string>, v: Vocabulary): ProfileRecord {
    var lines := LinesOf(texts);
    p.(name := LastName(p.name, lines, nameSet), isKey := KeyAfter(p.isKey, lines, KeyList(v, p.firmType)))
  }

  /** The URL of the full profile page: the first other link, resolved against the location. */
  function FullHref(p: ProfileRecord, urlJoin: (string, string) -> string): string {
    urlJoin(p.location, SplitOn(p.others, ';')[0])
  }

  /**
    For a fresh profile the full-profile link is the first non-e-mail, non-LinkedIn
    anchor of the element, when that href is non-empty and ';'-free.
  */
  lemma FullHrefIsFirstOther(url: string, firmType: FirmType, hrefs: seq<Option<string>>, urlJoin: (string, string) -> string)
    requires OfKind(hrefs, Other) != []
    requires OfKind(hrefs, Other)[0] != "" && ';' !in OfKind(hrefs, Other)[0]
    ensures FullHref(WithAnchors(NewRecord(url, firmType), hrefs), urlJoin) == urlJoin(url, OfKind(hrefs, Other)[0])
  {
    FirstPart(OfKind(hrefs, Other));
  }

  /**
    An e-mail field filled from `hrefs` on a fresh profile is non-empty exactly when
    a non-empty e-mail link was classified, whatever else the profile went through.
  */
  lemma EmailsRecorded(url: string, firmType: FirmType, emails: string)
    ensures forall hrefs :: emails == WithAnchors(NewRecord(url, firmType), hrefs).emails ==> (emails != "" <==> HasEmailLink(hrefs))
  {
    forall hrefs | emails == WithAnchors(NewRecord(url, firmType), hrefs).emails
      ensures emails != "" <==> HasEmailLink(hrefs)
    {
      var vs := OfKind(hrefs, Email);
      assert emails == AppendAll("", vs);
      AppendAllEmptyIff("", vs);
    }
  }

  /** Some anchor is a non-empty e-mail link. */
  predicate HasEmailLink(hrefs: seq<Option<string>>) {
    exists v :: v in OfKind(hrefs, Email) && v != ""
  }

  /**
    `FullHrefIsFirstOther` for any profile at `url` whose "other" field was filled
    from `hrefs` on a fresh profile, whatever else it went through, and the case of
    no other link.
  */
  lemma FirstOtherAll(url: string, firmType: FirmType, p: ProfileRecord, urlJoin: (string, string) -> string)
    requires p.location == url
    ensures forall hrefs :: p.others == WithAnchors(NewRecord(url, firmType), hrefs).others ==>
      && (OfKind(hrefs, Other) == [] ==> FullHref(p, urlJoin) == urlJoin(url, ""))
      && (OfKind(hrefs, Other) != [] && OfKind(hrefs, Other)[0] != "" && ';' !in OfKind(hrefs, Other)[0] ==>
            FullHref(p, urlJoin) == urlJoin(url, OfKind(hrefs, Other)[0]))
  {
    forall hrefs | p.others == WithAnchors(NewRecord(url, firmType), hrefs).others
      ensures OfKind(hrefs, Other) != [] && OfKind(hrefs, Other)[0] != "" && ';' !in OfKind(hrefs, Other)[0] ==>
            FullHref(p, urlJoin) == urlJoin(url, OfKind(hrefs, Other)[0])
    {
      if OfKind(hrefs, Other) != [] && OfKind(hrefs, Other)[0] != "" && ';' !in OfKind(hrefs, Other)[0] {
        FirstPart(OfKind(hrefs, Other));
      }
    }
  }

  /** The text scan sets only the name and the key flag: location and contact fields stay. */
  lemma TextNodesKeepContacts(p: ProfileRecord, texts: seq<string>, nameSet: set<string>, v: Vocabulary)
    ensures var q := WithTextNodes(p, texts, nameSet, v);
      && q.location == p.location && q.firmType == p.firmType
      && q.emails == p.emails && q.linkedins == p.linkedins && q.others == p.others
  {
  }

  /**
    `is_likely_profile_preview` on element `n`: not more than ten anchors, and not a
    single child with empty text.
  */
  predicate IsLikelyProfilePreview(t: Tree, n: nat)
    requires Valid(t)
  {
    var texts := ChildTexts(t, n);
    !(AnchorCount(t, n) > 10 || (|texts| == 1 && texts[0] == ""))
  }

  /** A likely preview has at most ten anchors; an element with many anchors is not one. */
  lemma PreviewTest(t: Tree, n: nat)
    requires Valid(t)
    ensures AnchorCount(t, n) > 10 ==> !IsLikelyProfilePreview(t, n)
    ensures IsLikelyProfilePreview(t, n) ==> AnchorCount(t, n) <= 10 && ChildTexts(t, n) != [""]
    ensures AnchorCount(t, n) <= 10 && |Children(t, n)| != 1 ==> IsLikelyProfilePreview(t, n)
    ensures AnchorCount(t, n) <= 10 && ChildTexts(t, n) != [""] ==> IsLikelyProfilePreview(t, n)
  {
  }

  // ---------------------------------------------------------------------------
  // The profile object

  class PersonalProfile {
    var location: string
    var firmType: FirmType
    var name: Option<string>
    var isKey: Option<bool>
    var emails: string
    var linkedins: string
    var others: string
    var isInvalid: Option<bool>

    function Record(): ProfileRecord
      reads this
    {
      ProfileRecord(location, firmType, name, isKey, emails, linkedins, others, isInvalid)
    }

    constructor (url: string, firmType: FirmType)
      ensures Record() == NewRecord(url, firmType)
    {
      location := url;
      this.firmType := firmType;
      name := None;
      isKey := None;
      emails := "";
      linkedins := "";
      others := "";
      isInvalid := None;
    }

    method AddEmail(email: string)
      modifies this
      ensures Record() == old(Record()).(emails := Appended(old(emails), email))
    {
      if emails == "" {
        emails := email;
      } else {
        emails := emails + ";" + email;
      }
    }

    method AddLinkedIn(linkedin: string)
      modifies this
      ensures Record() == old(Record()).(linkedins := Appended(old(linkedins), linkedin))
    {
      if linkedins == "" {
        linkedins := linkedin;
      } else {
        linkedins := linkedins + ";" + linkedin;
      }
    }

    method AddOtherAnchor(anchor: string)
      modifies this
      ensures Record() == old(Record()).(others := Appended(old(others), anchor))
    {
      if others == "" {
        others := anchor;
      } else {
        others := others + ";" + anchor;
      }
    }

    /**
      `contains_email`: when the e-mail field was filled from `hrefs` on a fresh
      profile (the text scan that may follow leaves it alone), some anchor was a
      non-empty e-mail link.
    */
    function ContainsEmail(): (b: bool)
      reads this
      ensures forall hrefs :: emails == WithAnchors(NewRecord(location, firmType), hrefs).emails ==> (b <==> HasEmailLink(hrefs))
    {
      EmailsRecorded(location, firmType, emails);
      |emails| > 0
    }

    /**
      `get_full_element_href`, the URL join being a parameter: when the "other"
      field was filled from `hrefs` on a fresh profile (the text scan that may follow
      leaves it alone), the first "other" link resolved against the location, or the
      location joined with "" when there is none.
    */
    function GetFullElementHref(urlJoin: (string, string) -> string): (r: string)
      reads this
      ensures r == FullHref(Record(), urlJoin)
      ensures forall hrefs :: others == WithAnchors(NewRecord(location, firmType), hrefs).others ==>
        && (OfKind(hrefs, Other) == [] ==> r == urlJoin(location, ""))
        && (OfKind(hrefs, Other) != [] && OfKind(hrefs, Other)[0] != "" && ';' !in OfKind(hrefs, Other)[0] ==>
              r == urlJoin(location, OfKind(hrefs, Other)[0]))
    {
      FirstOtherAll(location, firmType, Record(), urlJoin);
      urlJoin(location, SplitOn(others, ';')[0])
    }

    /**
      The anchor loop shared by `update_with_preview_element` and
      `update_with_full_element`: each present href goes to the field its kind
      selects, in order.
    */
    method AddAnchors(hrefs: seq<Option<string>>)
      modifies this
      ensures Record() == WithAnchors(old(Record()), hrefs)
    {
      for i := 0 to |hrefs|
        invariant Record() == WithAnchors(old(Record()), hrefs[..i])
      {
        assert hrefs[..i + 1] == hrefs[..i] + [hrefs[i]];
        WithAnchorsSnoc(old(Record()), hrefs[..i], hrefs[i]);
        match hrefs[i]
        case None =>
        case Some(href) =>
          if Contains(href, "linkedin") || Contains(href, "linked.in") {
            AddLinkedIn(href);
          } else if Contains(href, "mailto") {
            AddEmail(href);
          } else {
            AddOtherAnchor(href);
          }
      }
      assert hrefs[..|hrefs|] == hrefs;
    }

    /**
      `update_with_preview_element`: the validity test is never called (the source
      tests the method object itself), so `isInvalid` is left alone; then the
      anchors below the element are classified.
    */
    method UpdateWithPreviewElement(t: Tree, n: nat)
      requires Valid(t)
      modifies this
      ensures Record() == WithAnchors(old(Record()), AnchorHrefs(t, n))
      ensures isInvalid == old(isInvalid)
    {
      AddAnchors(AnchorHrefs(t, n));
    }

    /** `update_with_full_element` on the document element of a profile page. */
    method UpdateWithFullElement(t: Tree)
      requires Valid(t)
      modifies this
      ensures Record() == WithAnchors(old(Record()), AnchorHrefs(t, 0))
    {
      AddAnchors(AnchorHrefs(t, 0));
    }

    /**
      `update_with_text_nodes`: over every line of every text, a line with more than
      a fifth of its (at most five) tokens in the name set becomes the name, and a
      line whose lower case is in the key list sets the key flag.
    */
    method UpdateWithTextNodes(nameSet: set<string>, texts: seq<string>, v: Vocabulary)
      modifies this`name, this`isKey
      ensures Record() == WithTextNodes(old(Record()), texts, nameSet, v)
    {
      var keyList := KeyList(v, firmType);
      for i := 0 to |texts|
        invariant name == LastName(old(name), LinesOf(texts[..i]), nameSet)
        invariant isKey == KeyAfter(old(isKey), LinesOf(texts[..i]), keyList)
      {
        ghost var before := LinesOf(texts[..i]);
        ScanText(texts[i], nameSet, keyList);
        LinesOfSnoc(texts, i);
        LastNameAppend(old(name), before, SplitLines(texts[i]), nameSet);
        KeyAfterAppend(old(isKey), before, SplitLines(texts[i]), keyList);
      }
      assert texts[..|texts|] == texts;
    }

    /** The inner loop of `update_with_text_nodes`: every line of one text, in order. */
    method ScanText(text: string, nameSet: set<string>, keyList: seq<string>)
      modifies this`name, this`isKey
      ensures name == LastName(old(name), SplitLines(text), nameSet)
      ensures isKey == KeyAfter(old(isKey), SplitLines(text), keyList)
    {
      var lines := SplitLines(text);
      for j := 0 to |lines|
        invariant name == LastName(old(name), lines[..j], nameSet)
        invariant isKey == KeyAfter(old(isKey), lines[..j], keyList)
      {
        assert lines[..j + 1][..j] == lines[..j];
        ScanLine(lines[j], nameSet, keyList);
      }
      assert lines[..|lines|] == lines;
    }

    method ScanLine(line: string, nameSet: set<string>, keyList: seq<string>)
      modifies this`name, this`isKey
      ensures name == if IsNameLine(line, nameSet) then Some(line) else old(name)
      ensures isKey == if Lower(line) in keyList then Some(true) else old(isKey)
    {
      var tokens := Tokens(line);
      var nameScore := LineNameScore(tokens, nameSet);
      if 5 * nameScore > |tokens| {
        name := Some(line);
      }
      if Lower(line) in keyList {
        isKey := Some(true);
      }
    }
  }
}
