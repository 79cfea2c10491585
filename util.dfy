/**
  Profile-selector inference (util.py): find the name-bearing elements of a page,
  climb from two consecutive ones to the children of their common ancestor, and
  turn those into a CSS selector for one profile card, either by their shared
  classes or, when they share none, by the tag path from the document element.
*/
module Util {
  import opened Wrappers
  import opened Strings
  import opened Dom
  import opened Errors

  // ---------------------------------------------------------------------------
  // Class tokens

  predicate Distinct(s: seq<string>) {
    forall a, b :: 0 <= a < b < |s| ==> s[a] != s[b]
  }

  /**
    `return_token_intersection`: the tokens present in both lists, each once. The
    order comes from iterating a Python set, which is arbitrary; it is modelled by
    an arbitrary choice, so only the elements are fixed.
  */
  method ReturnTokenIntersection(tokens1: seq<string>, tokens2: seq<string>) returns (r: seq<string>)
    ensures forall x :: x in r <==> x in tokens1 && x in tokens2
    ensures Distinct(r)
  {
    var tokens1Set: set<string> := {};
    var tokens2Set: set<string> := {};
    for i := 0 to |tokens1|
      invariant tokens1Set == set x | x in tokens1[..i]
    {
      tokens1Set := tokens1Set + {tokens1[i]};
    }
    for i := 0 to |tokens2|
      invariant tokens2Set == set x | x in tokens2[..i]
    {
      tokens2Set := tokens2Set + {tokens2[i]};
    }
    assert tokens1[..|tokens1|] == tokens1 && tokens2[..|tokens2|] == tokens2;
    var both := tokens1Set * tokens2Set;
    r := [];
    var rest := both;
    while rest != {}
      invariant rest <= both
      invariant forall x :: x in r <==> x in both && x !in rest
      invariant Distinct(r)
      decreases |rest|
    {
      var x :| x in rest;
      r := r + [x];
      rest := rest - {x};
    }
  }

  /**
    `css_classtokens2selector`: the compound class selector text for `tokens`. For
    tokens produced by `split()` it is "." exactly when the list is empty, which is
    what the test `common != "."` relies on; and dropping the leading '.' and
    splitting on '.' gives the '.'-free tokens back.
  */
  function CssClassTokensToSelector(tokens: seq<string>): (r: string)
    ensures r == Render(ClassSel(tokens))
    ensures r[0] == '.'
    ensures (forall t :: t in tokens ==> IsToken(t)) ==> (r == "." <==> tokens == [])
    ensures tokens != [] && (forall t :: t in tokens ==> '.' !in t) ==> SplitOn(r[1..], '.') == tokens
  {
    ClassJoinFacts(tokens);
    var r := "." + Join(".", tokens);
    assert r[1..] == Join(".", tokens);
    r
  }

  lemma ClassJoinFacts(tokens: seq<string>)
    ensures (forall t :: t in tokens ==> IsToken(t)) ==> (Join(".", tokens) == "" <==> tokens == [])
    ensures tokens != [] && (forall t :: t in tokens ==> '.' !in t) ==> SplitOn(Join(".", tokens), '.') == tokens
  {
    if forall t :: t in tokens ==> IsToken(t) {
      JoinEmptyIff(".", tokens);
    }
    if tokens != [] && (forall t :: t in tokens ==> '.' !in t) {
      SplitJoin(tokens, '.');
    }
  }

  // ---------------------------------------------------------------------------
  // Names

  /** How many of `tokens` are in `names`, a repeated token counting each time. */
  function CountIn(tokens: seq<string>, names: set<string>): (n: nat)
    ensures n <= |tokens|
    decreases |tokens|
  {
    if tokens == [] then 0
    else CountIn(tokens[..|tokens| - 1], names) + (if tokens[|tokens| - 1] in names then 1 else 0)
  }

  /** `is_name`: count the lower-cased tokens that are in the name set; two make a name. */
  method IsName(potName: string, nameSet: set<string>) returns (b: bool)
    ensures b <==> CountIn(Tokens(Lower(potName)), nameSet) >= 2
  {
    var count := 0;
    var tokens := Tokens(Lower(potName));
    for i := 0 to |tokens|
      invariant count == CountIn(tokens[..i], nameSet)
    {
      assert tokens[..i + 1][..i] == tokens[..i];
      if tokens[i] in nameSet {
        count := count + 1;
      }
    }
    assert tokens[..|tokens|] == tokens;
    b := count >= 2;
  }

  /** Counting to two is the same as finding two positions holding names (possibly the same word). */
  lemma {:induction false} TwoNamePositions(tokens: seq<string>, names: set<string>)
    ensures CountIn(tokens, names) >= 2 <==>
            exists i, j :: 0 <= i < j < |tokens| && tokens[i] in names && tokens[j] in names
    decreases |tokens|
  {
    if tokens != [] {
      var init := tokens[..|tokens| - 1];
      TwoNamePositions(init, names);
      OneNamePosition(init, names);
      if CountIn(tokens, names) >= 2 {
        if tokens[|tokens| - 1] in names {
          var i :| 0 <= i < |init| && init[i] in names;
          assert tokens[i] in names;
        } else {
          var i, j :| 0 <= i < j < |init| && init[i] in names && init[j] in names;
          assert tokens[i] in names && tokens[j] in names;
        }
      }
      if exists i, j :: 0 <= i < j < |tokens| && tokens[i] in names && tokens[j] in names {
        var i, j :| 0 <= i < j < |tokens| && tokens[i] in names && tokens[j] in names;
        if j < |tokens| - 1 {
          assert init[i] in names && init[j] in names;
        } else {
          assert init[i] in names;
        }
      }
    }
  }

  lemma {:induction false} OneNamePosition(tokens: seq<string>, names: set<string>)
    ensures CountIn(tokens, names) >= 1 <==> exists i :: 0 <= i < |tokens| && tokens[i] in names
    decreases |tokens|
  {
    if tokens != [] {
      var init := tokens[..|tokens| - 1];
      OneNamePosition(init, names);
      if exists i :: 0 <= i < |init| && init[i] in names {
        var i :| 0 <= i < |init| && init[i] in names;
        assert tokens[i] in names;
      }
      if exists i :: 0 <= i < |tokens| && tokens[i] in names {
        var i :| 0 <= i < |tokens| && tokens[i] in names;
        if i < |init| {
          assert init[i] in names;
        }
      }
    }
  }

  predicate IsLetters(s: string) {
    s != "" && forall i :: 0 <= i < |s| ==> IsAsciiLetter(s[i])
  }

  /**
    The name pattern `^[a-zA-Z]+( [A-Z] | )[a-zA-Z]+$` without its anchors: two
    words of ASCII letters, or two such words around a single capital letter.
  */
  predicate NameShape(s: string) {
    var parts := SplitOn(s, ' ');
    || (|parts| == 2 && IsLetters(parts[0]) && IsLetters(parts[1]))
    || (|parts| == 3 && IsLetters(parts[0]) && |parts[1]| == 1 && IsAsciiUpper(parts[1][0]) && IsLetters(parts[2]))
  }

  /** `name_regex.match(test).group(0)`: Python's `$` also matches before one final newline. */
  function NameMatch(test: string): Option<string> {
    if NameShape(test) then Some(test)
    else if test != "" && test[|test| - 1] == '\n' && NameShape(test[..|test| - 1]) then Some(test[..|test| - 1])
    else None
  }

  /** Element `e` passes both tests of `get_name_elements`: the name pattern and `is_name`. */
  predicate QualifiesAsName(t: Tree, nameSet: set<string>, e: nat)
    requires e < |t.nodes|
  {
    var m := NameMatch(StripDotsCommas(t.nodes[e].text));
    m.Some? && CountIn(Tokens(Lower(m.value)), nameSet) >= 2
  }

  function TextsOf(t: Tree, es: seq<nat>): set<string> {
    set e | e in es && e < |t.nodes| :: t.nodes[e].text
  }

  predicate InTree(t: Tree, es: seq<nat>) {
    forall k :: 0 <= k < |es| ==> es[k] < |t.nodes|
  }

  /** The collection loop of `get_name_elements`, from candidate list `es` and names so far `acc`. */
  function Collect(t: Tree, nameSet: set<string>, nameLimit: nat, es: seq<nat>, acc: seq<nat>): (r: seq<nat>)
    requires InTree(t, es) && InTree(t, acc)
    ensures InTree(t, r)
    decreases |es|
  {
    if es == [] || |acc| > nameLimit then acc
    else if QualifiesAsName(t, nameSet, es[0]) && t.nodes[es[0]].text !in TextsOf(t, acc)
    then Collect(t, nameSet, nameLimit, es[1..], acc + [es[0]])
    else Collect(t, nameSet, nameLimit, es[1..], acc)
  }

  /** The elements `get_name_elements` returns. */
  function NameElements(t: Tree, nameSet: set<string>, nameLimit: nat): (r: seq<nat>)
    requires Valid(t)
    ensures InTree(t, r)
  {
    Collect(t, nameSet, nameLimit, FindAll(t, WithText), [])
  }

  /** One step of the collection loop, at candidate `i`. */
  lemma CollectStep(t: Tree, nameSet: set<string>, nameLimit: nat, es: seq<nat>, i: nat, acc: seq<nat>)
    requires InTree(t, es) && InTree(t, acc) && i < |es| && |acc| <= nameLimit
    ensures var e := es[i];
      var keep := QualifiesAsName(t, nameSet, e) && t.nodes[e].text !in TextsOf(t, acc);
      Collect(t, nameSet, nameLimit, es[i..], acc) == Collect(t, nameSet, nameLimit, es[i + 1..], if keep then acc + [e] else acc)
  {
    assert es[i..][0] == es[i] && es[i..][1..] == es[i + 1..];
  }

  /** Past the name limit the collection stops. */
  lemma CollectDone(t: Tree, nameSet: set<string>, nameLimit: nat, es: seq<nat>, acc: seq<nat>)
    requires InTree(t, es) && InTree(t, acc) && |acc| > nameLimit
    ensures Collect(t, nameSet, nameLimit, es, acc) == acc
  {
  }

  /**
    `get_name_elements`: scan the elements with own text in document order, keep
    those passing the name pattern and `is_name` whose text was not seen before,
    and stop once more than `nameLimit` are kept.
  */
  method GetNameElements(t: Tree, nameSet: set<string>, nameLimit: nat) returns (names: seq<nat>)
    requires Valid(t)
    ensures names == NameElements(t, nameSet, nameLimit)
  {
    var elements := FindAll(t, WithText);
    names := [];
    var namesBackingSet: set<string> := {};
    var i := 0;
    while i < |elements|
      invariant 0 <= i <= |elements|
      invariant InTree(t, names)
      invariant namesBackingSet == TextsOf(t, names)
      invariant |names| <= nameLimit
      invariant Collect(t, nameSet, nameLimit, elements[i..], names) == NameElements(t, nameSet, nameLimit)
    {
      var e := elements[i];
      CollectStep(t, nameSet, nameLimit, elements, i, names);
      var test := StripDotsCommas(t.nodes[e].text);
      var matched := NameMatch(test);
      if matched.Some? {
        var isName := IsName(matched.value, nameSet);
        if isName && t.nodes[e].text !in namesBackingSet {
          TextsOfSnoc(t, names, e);
          names := names + [e];
          namesBackingSet := namesBackingSet + {t.nodes[e].text};
          if |names| > nameLimit {
            CollectDone(t, nameSet, nameLimit, elements[i + 1..], names);
            return;
          }
        }
      }
      i := i + 1;
    }
  }

  predicate Increasing(s: seq<nat>) {
    forall a, b :: 0 <= a < b < |s| ==> s[a] < s[b]
  }

  predicate DistinctTexts(t: Tree, s: seq<nat>)
    requires InTree(t, s)
  {
    forall a, b :: 0 <= a < b < |s| ==> t.nodes[s[a]].text != t.nodes[s[b]].text
  }

  predicate AllNames(t: Tree, nameSet: set<string>, s: seq<nat>)
    requires InTree(t, s)
  {
    forall k :: 0 <= k < |s| ==> t.nodes[s[k]].hasTextChild && QualifiesAsName(t, nameSet, s[k])
  }

  /** One step of the collection loop keeps the kept names increasing. */
  lemma KeepIncreasing(acc: seq<nat>, e: nat)
    requires Increasing(acc) && (|acc| > 0 ==> acc[|acc| - 1] < e)
    ensures Increasing(acc + [e])
  {
    var acc' := acc + [e];
    forall a, b | 0 <= a < b < |acc'| ensures acc'[a] < acc'[b] {
      if b == |acc| && a < |acc| - 1 {
        assert acc[a] < acc[|acc| - 1];
      }
    }
  }

  /** One step of the collection loop keeps the kept texts distinct. */
  lemma KeepDistinct(t: Tree, acc: seq<nat>, e: nat)
    requires InTree(t, acc) && e < |t.nodes|
    requires t.nodes[e].text !in TextsOf(t, acc)
    requires DistinctTexts(t, acc)
    ensures InTree(t, acc + [e]) && DistinctTexts(t, acc + [e])
  {
    var acc' := acc + [e];
    forall a, b | 0 <= a < b < |acc'| ensures t.nodes[acc'[a]].text != t.nodes[acc'[b]].text {
      if b == |acc| {
        assert acc[a] in acc;
      }
    }
  }

  /** One step of the collection loop keeps only names. */
  lemma KeepNames(t: Tree, nameSet: set<string>, acc: seq<nat>, e: nat)
    requires InTree(t, acc) && e < |t.nodes|
    requires t.nodes[e].hasTextChild && QualifiesAsName(t, nameSet, e)
    requires AllNames(t, nameSet, acc)
    ensures InTree(t, acc + [e]) && AllNames(t, nameSet, acc + [e])
  {
    var acc' := acc + [e];
    forall k | 0 <= k < |acc'|
      ensures acc'[k] < |t.nodes| && t.nodes[acc'[k]].hasTextChild && QualifiesAsName(t, nameSet, acc'[k])
    {
      if k < |acc| {
        assert acc'[k] == acc[k];
      }
    }
  }

  lemma {:induction false} CollectShape(t: Tree, nameSet: set<string>, nameLimit: nat, es: seq<nat>, acc: seq<nat>)
    requires InTree(t, es) && InTree(t, acc)
    requires Increasing(es) && Increasing(acc)
    requires |acc| > 0 && |es| > 0 ==> acc[|acc| - 1] < es[0]
    requires forall k :: 0 <= k < |es| ==> t.nodes[es[k]].hasTextChild
    requires AllNames(t, nameSet, acc) && DistinctTexts(t, acc)
    requires |acc| <= nameLimit + 1
    ensures var r := Collect(t, nameSet, nameLimit, es, acc);
      && Increasing(r) && AllNames(t, nameSet, r) && DistinctTexts(t, r)
      && |r| <= nameLimit + 1
    decreases |es|
  {
    if es != [] && |acc| <= nameLimit {
      var e := es[0];
      var rest := es[1..];
      assert |rest| > 0 ==> e < rest[0];
      if QualifiesAsName(t, nameSet, e) && t.nodes[e].text !in TextsOf(t, acc) {
        KeepIncreasing(acc, e);
        KeepDistinct(t, acc, e);
        KeepNames(t, nameSet, acc, e);
        CollectShape(t, nameSet, nameLimit, rest, acc + [e]);
      } else {
        if |acc| > 0 && |rest| > 0 {
          assert acc[|acc| - 1] < e;
        }
        CollectShape(t, nameSet, nameLimit, rest, acc);
      }
    }
  }

  lemma {:induction false} CollectGrows(t: Tree, nameSet: set<string>, nameLimit: nat, es: seq<nat>, acc: seq<nat>)
    requires InTree(t, es) && InTree(t, acc)
    ensures acc <= Collect(t, nameSet, nameLimit, es, acc)
    decreases |es|
  {
    if es != [] && |acc| <= nameLimit {
      var e := es[0];
      if QualifiesAsName(t, nameSet, e) && t.nodes[e].text !in TextsOf(t, acc) {
        CollectGrows(t, nameSet, nameLimit, es[1..], acc + [e]);
      } else {
        CollectGrows(t, nameSet, nameLimit, es[1..], acc);
      }
    }
  }

  lemma TextsOfSnoc(t: Tree, es: seq<nat>, e: nat)
    requires e < |t.nodes|
    ensures TextsOf(t, es + [e]) == TextsOf(t, es) + {t.nodes[e].text}
  {
    assert forall x :: x in es + [e] <==> x in es || x == e;
  }

  lemma TextsOfPrefix(t: Tree, acc: seq<nat>, r: seq<nat>)
    requires acc <= r
    ensures TextsOf(t, acc) <= TextsOf(t, r)
  {
    forall x | x in TextsOf(t, acc) ensures x in TextsOf(t, r) {
      var y :| y in acc && y < |t.nodes| && t.nodes[y].text == x;
      assert y in r;
    }
  }

  lemma {:induction false} CollectComplete(t: Tree, nameSet: set<string>, nameLimit: nat, es: seq<nat>, acc: seq<nat>)
    requires InTree(t, es) && InTree(t, acc)
    requires |acc| <= nameLimit + 1
    ensures var r := Collect(t, nameSet, nameLimit, es, acc);
      |r| <= nameLimit ==>
        forall k :: 0 <= k < |es| && QualifiesAsName(t, nameSet, es[k]) ==> t.nodes[es[k]].text in TextsOf(t, r)
    decreases |es|
  {
    var r := Collect(t, nameSet, nameLimit, es, acc);
    if es != [] && |acc| <= nameLimit {
      var e := es[0];
      var rest := es[1..];
      var acc' := if QualifiesAsName(t, nameSet, e) && t.nodes[e].text !in TextsOf(t, acc) then acc + [e] else acc;
      assert r == Collect(t, nameSet, nameLimit, rest, acc');
      CollectComplete(t, nameSet, nameLimit, rest, acc');
      CollectGrows(t, nameSet, nameLimit, rest, acc');
      TextsOfPrefix(t, acc', r);
      if |r| <= nameLimit && QualifiesAsName(t, nameSet, e) {
        TextsOfPrefix(t, acc, acc');
        assert e in acc' ==> t.nodes[e].text in TextsOf(t, acc');
      }
      forall k | 0 <= k < |es| && QualifiesAsName(t, nameSet, es[k]) && |r| <= nameLimit
        ensures t.nodes[es[k]].text in TextsOf(t, r)
      {
        if k > 0 {
          assert rest[k - 1] == es[k];
        }
      }
    }
  }

  /** Element `e` has own text and passes both name tests. */
  predicate NameAt(t: Tree, nameSet: set<string>, e: nat) {
    e < |t.nodes| && t.nodes[e].hasTextChild && QualifiesAsName(t, nameSet, e)
  }

  /** Each kept element is the first name element, in document order, with its text. */
  predicate FirstOfText(t: Tree, nameSet: set<string>, r: seq<nat>)
    requires InTree(t, r)
  {
    forall j, e: nat :: 0 <= j < |r| && e < r[j] && NameAt(t, nameSet, e) ==> t.nodes[e].text != t.nodes[r[j]].text
  }

  /** Each kept element is first of its text, and all name texts up to the last kept one are kept. */
  predicate FirstTexts(t: Tree, nameSet: set<string>, r: seq<nat>)
    requires InTree(t, r)
  {
    FirstOfText(t, nameSet, r) && (|r| > 0 ==> CoveredBelow(t, nameSet, r, r[|r| - 1] + 1))
  }

  /** Every name element before `b` has its text among the kept ones. */
  predicate CoveredBelow(t: Tree, nameSet: set<string>, acc: seq<nat>, b: nat) {
    forall e: nat :: e < b && NameAt(t, nameSet, e) ==> t.nodes[e].text in TextsOf(t, acc)
  }

  /** Kept elements that are first of their texts and cover everything below a bound past the last one. */
  lemma FirstTextsBelow(t: Tree, nameSet: set<string>, acc: seq<nat>, b: nat)
    requires InTree(t, acc) && FirstOfText(t, nameSet, acc) && CoveredBelow(t, nameSet, acc, b)
    requires |acc| > 0 ==> acc[|acc| - 1] < b
    ensures FirstTexts(t, nameSet, acc)
  {
    if |acc| > 0 {
      CoveredMono(t, nameSet, acc, b, acc[|acc| - 1] + 1);
    }
  }

  lemma CoveredMono(t: Tree, nameSet: set<string>, acc: seq<nat>, b: nat, b': nat)
    requires CoveredBelow(t, nameSet, acc, b) && b' <= b
    ensures CoveredBelow(t, nameSet, acc, b')
  {
  }

  /** Where the candidates still to scan begin. */
  function Bound(t: Tree, es: seq<nat>): nat {
    if es == [] then |t.nodes| else es[0]
  }

  /** The candidates from `es[0]` on are all elements with own text from there on. */
  predicate AllFrom(t: Tree, es: seq<nat>)
    requires InTree(t, es)
  {
    && Increasing(es)
    && (forall k :: 0 <= k < |es| ==> t.nodes[es[k]].hasTextChild)
    && (|es| > 0 ==> forall e :: es[0] <= e < |t.nodes| && t.nodes[e].hasTextChild ==> e in es)
  }

  /** Past the first candidate nothing with own text lies before the next one. */
  lemma NoneBetween(t: Tree, es: seq<nat>)
    requires InTree(t, es) && AllFrom(t, es) && |es| > 0
    ensures forall e :: es[0] < e < Bound(t, es[1..]) ==> !t.nodes[e].hasTextChild
  {
    forall e | es[0] < e < Bound(t, es[1..]) ensures !t.nodes[e].hasTextChild {
    }
  }

  lemma AllFromRest(t: Tree, es: seq<nat>)
    requires InTree(t, es) && AllFrom(t, es) && |es| > 0
    ensures InTree(t, es[1..]) && AllFrom(t, es[1..])
  {
    var rest := es[1..];
    if |rest| > 0 {
      forall e | rest[0] <= e < |t.nodes| && t.nodes[e].hasTextChild ensures e in rest {
        assert es[0] < rest[0];
        var k :| 0 <= k < |es| && es[k] == e;
        assert k > 0 && rest[k - 1] == e;
      }
    }
  }

  /**
    The scan of `get_name_elements` before candidates `es`, having kept `acc`: the
    candidates are every element with own text from the first one on, the kept
    ones lie before them, each is first of its text, and every name element
    before the candidates has its text kept.
  */
  predicate ScanState(t: Tree, nameSet: set<string>, es: seq<nat>, acc: seq<nat>) {
    && InTree(t, es) && InTree(t, acc) && AllFrom(t, es)
    && (|acc| > 0 && |es| > 0 ==> acc[|acc| - 1] < es[0])
    && FirstOfText(t, nameSet, acc) && CoveredBelow(t, nameSet, acc, Bound(t, es))
  }

  /** Keeping candidate `e = es[0]` keeps the kept elements first of their texts and the coverage. */
  lemma KeepFirst(t: Tree, nameSet: set<string>, es: seq<nat>, acc: seq<nat>)
    requires ScanState(t, nameSet, es, acc) && |es| > 0
    requires QualifiesAsName(t, nameSet, es[0]) && t.nodes[es[0]].text !in TextsOf(t, acc)
    ensures ScanState(t, nameSet, es[1..], acc + [es[0]])
  {
    var e := es[0];
    var acc' := acc + [e];
    assert NameAt(t, nameSet, e);
    AllFromRest(t, es);
    TextsOfSnoc(t, acc, e);
    NoneBetween(t, es);
    forall j, x: nat | 0 <= j < |acc'| && x < acc'[j] && NameAt(t, nameSet, x)
      ensures t.nodes[x].text != t.nodes[acc'[j]].text
    {
      if j < |acc| {
        assert acc'[j] == acc[j];
      }
    }
    forall x: nat | x < Bound(t, es[1..]) && NameAt(t, nameSet, x)
      ensures t.nodes[x].text in TextsOf(t, acc')
    {
    }
    assert |es[1..]| > 0 ==> acc'[|acc'| - 1] < es[1..][0];
  }

  /** Skipping candidate `es[0]` keeps the coverage. */
  lemma SkipFirst(t: Tree, nameSet: set<string>, es: seq<nat>, acc: seq<nat>)
    requires ScanState(t, nameSet, es, acc) && |es| > 0
    requires !(QualifiesAsName(t, nameSet, es[0]) && t.nodes[es[0]].text !in TextsOf(t, acc))
    ensures ScanState(t, nameSet, es[1..], acc)
  {
    AllFromRest(t, es);
    NoneBetween(t, es);
    forall x: nat | x < Bound(t, es[1..]) && NameAt(t, nameSet, x)
      ensures t.nodes[x].text in TextsOf(t, acc)
    {
    }
  }

  /**
    The collection keeps the first element of each text, and every name element up
    to the last kept one has its text kept.
  */
  lemma {:induction false} CollectFirst(t: Tree, nameSet: set<string>, nameLimit: nat, es: seq<nat>, acc: seq<nat>)
    requires ScanState(t, nameSet, es, acc)
    ensures FirstTexts(t, nameSet, Collect(t, nameSet, nameLimit, es, acc))
    decreases |es|
  {
    if es != [] && |acc| <= nameLimit {
      if QualifiesAsName(t, nameSet, es[0]) && t.nodes[es[0]].text !in TextsOf(t, acc) {
        assert Collect(t, nameSet, nameLimit, es, acc) == Collect(t, nameSet, nameLimit, es[1..], acc + [es[0]]);
        KeepFirst(t, nameSet, es, acc);
        CollectFirst(t, nameSet, nameLimit, es[1..], acc + [es[0]]);
      } else {
        assert Collect(t, nameSet, nameLimit, es, acc) == Collect(t, nameSet, nameLimit, es[1..], acc);
        SkipFirst(t, nameSet, es, acc);
        CollectFirst(t, nameSet, nameLimit, es[1..], acc);
      }
    } else {
      assert Collect(t, nameSet, nameLimit, es, acc) == acc;
      FirstTextsBelow(t, nameSet, acc, Bound(t, es));
    }
  }

  /** The candidates are every element with own text, in document order. */
  lemma StartAllFrom(t: Tree)
    requires Valid(t)
    ensures var es := FindAll(t, WithText);
      InTree(t, es) && AllFrom(t, es)
  {
    var es := FindAll(t, WithText);
    assert forall k :: 0 <= k < |es| ==> es[k] in es;
  }

  /** No element with own text lies before the first candidate. */
  lemma StartBound(t: Tree)
    requires Valid(t)
    ensures forall x: nat :: x < |t.nodes| && t.nodes[x].hasTextChild ==> Bound(t, FindAll(t, WithText)) <= x
  {
    var es := FindAll(t, WithText);
    forall x: nat | x < |t.nodes| && t.nodes[x].hasTextChild ensures |es| > 0 && es[0] <= x {
      assert x in es;
      var k :| 0 <= k < |es| && es[k] == x;
      if k > 0 {
        assert es[0] < es[k];
      }
    }
  }

  /** The collection starts from every element with own text, nothing below the first one to cover. */
  lemma CollectStart(t: Tree, nameSet: set<string>)
    requires Valid(t)
    ensures ScanState(t, nameSet, FindAll(t, WithText), [])
  {
    StartAllFrom(t);
    StartBound(t);
  }

  /**
    Each element `get_name_elements` returns is the first name element with its
    text, and every name element up to the last one returned has its text among
    them: the result is the first distinct name texts in document order, which
    when the cap is hit are the first `nameLimit + 1` of them.
  */
  lemma NameElementsFirst(t: Tree, nameSet: set<string>, nameLimit: nat)
    requires Valid(t)
    ensures FirstTexts(t, nameSet, NameElements(t, nameSet, nameLimit))
  {
    CollectStart(t, nameSet);
    CollectFirst(t, nameSet, nameLimit, FindAll(t, WithText), []);
  }

  /**
    What `get_name_elements` returns: name elements with own text, in document order,
    each passing the pattern and `is_name`, with pairwise different texts, at most
    `nameLimit + 1` of them; and when the cap was not hit, every qualifying element's
    text is among them.
  */
  lemma NameElementsProperties(t: Tree, nameSet: set<string>, nameLimit: nat)
    requires Valid(t)
    ensures var r := NameElements(t, nameSet, nameLimit);
      && InTree(t, r) && Increasing(r) && AllNames(t, nameSet, r) && DistinctTexts(t, r)
      && |r| <= nameLimit + 1
      && (|r| <= nameLimit ==>
            forall e :: 0 <= e < |t.nodes| && t.nodes[e].hasTextChild && QualifiesAsName(t, nameSet, e)
              ==> t.nodes[e].text in TextsOf(t, r))
  {
    var es := FindAll(t, WithText);
    assert forall k :: 0 <= k < |es| ==> es[k] in es;
    CollectShape(t, nameSet, nameLimit, es, []);
    CollectComplete(t, nameSet, nameLimit, es, []);
    var r := NameElements(t, nameSet, nameLimit);
    forall e | 0 <= e < |t.nodes| && t.nodes[e].hasTextChild && QualifiesAsName(t, nameSet, e) && |r| <= nameLimit
      ensures t.nodes[e].text in TextsOf(t, r)
    {
      assert e in es;
      var k :| 0 <= k < |es| && es[k] == e;
    }
  }

  // ---------------------------------------------------------------------------
  // The lock-step climb

  /** Where the climb left `name_1` and `name_2`, and whether their parents met. */
  datatype Climbed = Climbed(n1: nat, n2: nat, converged: bool)

  /**
    The climb of `get_profile_selector` from `n1`, `n2` (neither the root): stop when
    the parents coincide; otherwise move both up one, and when a parent has no parent
    of its own the browser raises with both names already moved.
  */
  function ClimbFrom(t: Tree, n1: nat, n2: nat): (c: Climbed)
    requires Valid(t) && 0 < n1 < |t.nodes| && 0 < n2 < |t.nodes|
    ensures c.n1 < |t.nodes| && c.n2 < |t.nodes|
    decreases n1
  {
    var p1 := ParentOf(t, n1);
    var p2 := ParentOf(t, n2);
    if p1 == p2 then Climbed(n1, n2, true)
    else if p1 == 0 || p2 == 0 then Climbed(p1, p2, false)
    else ClimbFrom(t, p1, p2)
  }

  /** The inner `while name_1_parent != name_2_parent` loop with its `try`. */
  method ClimbToSiblings(t: Tree, a: nat, b: nat) returns (n1: nat, n2: nat, converged: bool)
    requires Valid(t) && 0 < a < |t.nodes| && 0 < b < |t.nodes|
    ensures Climbed(n1, n2, converged) == ClimbFrom(t, a, b)
  {
    n1, n2 := a, b;
    var p1 := ParentOf(t, n1);
    var p2 := ParentOf(t, n2);
    while p1 != p2
      invariant 0 < n1 < |t.nodes| && 0 < n2 < |t.nodes|
      invariant p1 == ParentOf(t, n1) && p2 == ParentOf(t, n2)
      invariant ClimbFrom(t, n1, n2) == ClimbFrom(t, a, b)
      decreases n1
    {
      n1 := p1;
      n2 := p2;
      if p1 == 0 {
        return n1, n2, false;
      }
      p1 := ParentOf(t, p1);
      if p2 == 0 {
        return n1, n2, false;
      }
      p2 := ParentOf(t, p2);
    }
    converged := true;
  }

  /** How many steps the climb from `a`, `b` moves each name up. */
  function ClimbSteps(t: Tree, a: nat, b: nat): nat
    requires Valid(t) && 0 < a < |t.nodes| && 0 < b < |t.nodes|
    decreases a
  {
    var p1 := ParentOf(t, a);
    var p2 := ParentOf(t, b);
    if p1 == p2 then 0
    else if p1 == 0 || p2 == 0 then 1
    else 1 + ClimbSteps(t, p1, p2)
  }

  /** The climb moves both names up by the same number of steps. */
  lemma {:induction false} ClimbUp(t: Tree, a: nat, b: nat)
    requires Valid(t) && 0 < a < |t.nodes| && 0 < b < |t.nodes|
    ensures var c, k := ClimbFrom(t, a, b), ClimbSteps(t, a, b);
      && k <= Depth(t, a) && k <= Depth(t, b)
      && c.n1 == Up(t, a, k) && c.n2 == Up(t, b, k)
    decreases a
  {
    var p1 := ParentOf(t, a);
    var p2 := ParentOf(t, b);
    if p1 != p2 && p1 != 0 && p2 != 0 {
      ClimbUp(t, p1, p2);
      var k' := ClimbSteps(t, p1, p2);
      assert Up(t, a, k' + 1) == Up(t, p1, k');
      assert Up(t, b, k' + 1) == Up(t, p2, k');
    }
  }

  /**
    The climb converges exactly when the names lie at the same depth, and then at
    two nodes below a common parent; otherwise one of them has reached the root.
  */
  lemma {:induction false} ClimbConverges(t: Tree, a: nat, b: nat)
    requires Valid(t) && 0 < a < |t.nodes| && 0 < b < |t.nodes|
    ensures var c := ClimbFrom(t, a, b);
      && (c.converged <==> Depth(t, a) == Depth(t, b))
      && (c.converged ==> 0 < c.n1 && 0 < c.n2 && ParentOf(t, c.n1) == ParentOf(t, c.n2))
      && (!c.converged ==> c.n1 == 0 || c.n2 == 0)
    decreases a
  {
    var p1 := ParentOf(t, a);
    var p2 := ParentOf(t, b);
    if p1 != p2 {
      if p1 == 0 {
        assert Depth(t, a) == 1 && Depth(t, b) >= 2;
      } else if p2 == 0 {
        assert Depth(t, b) == 1 && Depth(t, a) >= 2;
      } else {
        ClimbConverges(t, p1, p2);
      }
    }
  }

  /** A converging climb meets at the first level where the parents coincide. */
  lemma {:induction false} ClimbFirstMeet(t: Tree, a: nat, b: nat)
    requires Valid(t) && 0 < a < |t.nodes| && 0 < b < |t.nodes|
    requires ClimbFrom(t, a, b).converged
    ensures var k := ClimbSteps(t, a, b);
      k <= Depth(t, a) && k <= Depth(t, b)
      && forall j :: 0 <= j < k ==>
           0 < Up(t, a, j) && 0 < Up(t, b, j) && ParentOf(t, Up(t, a, j)) != ParentOf(t, Up(t, b, j))
    decreases a
  {
    ClimbUp(t, a, b);
    var p1 := ParentOf(t, a);
    var p2 := ParentOf(t, b);
    if p1 != p2 {
      ClimbFirstMeet(t, p1, p2);
      var k := ClimbSteps(t, a, b);
      forall j | 0 <= j < k
        ensures 0 < Up(t, a, j) && 0 < Up(t, b, j) && ParentOf(t, Up(t, a, j)) != ParentOf(t, Up(t, b, j))
      {
        if j > 0 {
          assert Up(t, a, j) == Up(t, p1, j - 1);
          assert Up(t, b, j) == Up(t, p2, j - 1);
        }
      }
    }
  }

  /**
    The climb moves both names up the same number `k` of steps. It converges, with
    the two climbed nodes distinct siblings, exactly when the names lie at the same
    depth, and then at the first level where their parents coincide; otherwise one
    of them has reached the root.
  */
  lemma ClimbMeaning(t: Tree, a: nat, b: nat) returns (k: nat)
    requires Valid(t) && 0 < a < |t.nodes| && 0 < b < |t.nodes|
    ensures var c := ClimbFrom(t, a, b);
      && k <= Depth(t, a) && k <= Depth(t, b)
      && c.n1 == Up(t, a, k) && c.n2 == Up(t, b, k)
      && (c.converged <==> Depth(t, a) == Depth(t, b))
      && (c.converged ==> 0 < c.n1 && 0 < c.n2 && ParentOf(t, c.n1) == ParentOf(t, c.n2))
      && (c.converged ==> forall j :: 0 <= j < k ==>
            0 < Up(t, a, j) && 0 < Up(t, b, j) && ParentOf(t, Up(t, a, j)) != ParentOf(t, Up(t, b, j)))
      && (!c.converged ==> c.n1 == 0 || c.n2 == 0)
  {
    k := ClimbSteps(t, a, b);
    ClimbUp(t, a, b);
    ClimbConverges(t, a, b);
    if ClimbFrom(t, a, b).converged {
      ClimbFirstMeet(t, a, b);
    }
  }

  /**
    The pair loop of `get_profile_selector` from pair `i`, `last` being where the
    previous pair's climb stopped (`None` before the first pair).
  */
  function PickPair(t: Tree, names: seq<nat>, i: nat, last: Option<Climbed>): (r: Result<Climbed, Error>)
    requires Valid(t) && InTree(t, names)
    requires last.Some? ==> last.value.n1 < |t.nodes| && last.value.n2 < |t.nodes|
    ensures r.Success? ==> r.value.n1 < |t.nodes| && r.value.n2 < |t.nodes|
    ensures r.Failure? ==> r.error == NotEnoughNames || r.error == NoParent
    ensures r == Failure(NotEnoughNames) ==> last.None? && i + 1 >= |names|
    ensures r == Failure(NoParent) ==> exists m :: i <= m < |names| && names[m] == 0
    ensures (last.Some? || i + 1 < |names|) && (forall m :: i <= m < |names| ==> names[m] != 0) ==> r.Success?
    decreases |names| - i
  {
    if i + 1 >= |names| then
      (if last.None? then Failure(NotEnoughNames) else Success(last.value))
    else if names[i] == 0 || names[i + 1] == 0 then Failure(NoParent)
    else
      var c := ClimbFrom(t, names[i], names[i + 1]);
      if c.converged then Success(c) else PickPair(t, names, i + 1, Some(c))
  }

  /** No name is the document element. */
  predicate NoRootName(names: seq<nat>) {
    forall m :: 0 <= m < |names| ==> names[m] != 0
  }

  /** No name of the pairs up to pair `j` is the document element. */
  predicate PairsBelowRoot(names: seq<nat>, j: nat)
    requires j + 1 < |names|
  {
    forall m :: 0 <= m <= j + 1 ==> names[m] != 0
  }

  /** The pairs before pair `j` all join names at different depths. */
  ghost predicate DepthsDifferBefore(t: Tree, names: seq<nat>, j: nat)
    requires Valid(t) && InTree(t, names) && j < |names|
  {
    forall m :: 0 <= m < j ==> Depth(t, names[m]) != Depth(t, names[m + 1])
  }

  lemma {:induction false} PickPairFrom(t: Tree, names: seq<nat>, i: nat, last: Option<Climbed>) returns (j: nat)
    requires Valid(t) && InTree(t, names)
    requires i > 0 ==> i < |names| && last.Some? && PairsBelowRoot(names, i - 1)
    requires i > 0 ==> DepthsDifferBefore(t, names, i - 1) && Depth(t, names[i - 1]) != Depth(t, names[i])
    requires i > 0 ==> last.value == ClimbFrom(t, names[i - 1], names[i])
    requires i == 0 ==> last.None?
    ensures var r := PickPair(t, names, i, last);
      && (r == Failure(NotEnoughNames) <==> |names| < 2)
      && (|names| >= 2 && NoRootName(names) ==> r.Success?)
      && (r == Failure(NoParent) ==> exists m :: 0 <= m < |names| && names[m] == 0)
      && (r.Success? ==>
            && j + 1 < |names| && PairsBelowRoot(names, j)
            && r.value == ClimbFrom(t, names[j], names[j + 1])
            && DepthsDifferBefore(t, names, j)
            && (r.value.converged || j + 2 == |names|))
    decreases |names| - i
  {
    j := 0;
    if i + 1 >= |names| {
      if last.Some? {
        j := i - 1;
      }
    } else if names[i] == 0 || names[i + 1] == 0 {
      var m := if names[i] == 0 then i else i + 1;
      assert names[m] == 0;
    } else {
      var c := ClimbFrom(t, names[i], names[i + 1]);
      ClimbConverges(t, names[i], names[i + 1]);
      if c.converged {
        j := i;
      } else {
        assert PairsBelowRoot(names, i) by {
          if i > 0 {
            assert PairsBelowRoot(names, i - 1);
          }
        }
        assert DepthsDifferBefore(t, names, i) by {
          if i > 0 {
            assert DepthsDifferBefore(t, names, i - 1);
          }
        }
        j := PickPairFrom(t, names, i + 1, Some(c));
      }
    }
  }

  /**
    Exactly the lists of fewer than two names fail with `NotEnoughNames`; the loop
    fails otherwise only with `NoParent`, and only when some name is the document
    element (whose parent lookup raises outside the `try`), so two or more names
    none of which is the document element always give a climb. That climb is the
    first pair's whose names lie at the same depth; if there is none, it is the
    last pair's, stopped at the root.
  */
  lemma PickPairMeaning(t: Tree, names: seq<nat>) returns (j: nat)
    requires Valid(t) && InTree(t, names)
    ensures var r := PickPair(t, names, 0, None);
      && (r == Failure(NotEnoughNames) <==> |names| < 2)
      && (|names| >= 2 && NoRootName(names) ==> r.Success?)
      && (r == Failure(NoParent) ==> exists m :: 0 <= m < |names| && names[m] == 0)
      && (r.Success? ==>
            && j + 1 < |names| && PairsBelowRoot(names, j)
            && r.value == ClimbFrom(t, names[j], names[j + 1])
            && (forall m :: 0 <= m < j ==> Depth(t, names[m]) != Depth(t, names[m + 1]))
            && (r.value.converged <==> Depth(t, names[j]) == Depth(t, names[j + 1]))
            && (!r.value.converged ==> j + 2 == |names|))
  {
    j := PickPairFrom(t, names, 0, None);
    var r := PickPair(t, names, 0, None);
    if r.Success? {
      ClimbConverges(t, names[j], names[j + 1]);
    }
  }

  // ---------------------------------------------------------------------------
  // Drill-down and the tag-path fallback

  /** How the drill-down ends: the full classes of node `m`, or the shared classes. */
  datatype Drill = Full(m: nat) | KeepCommon

  /** Descend through only children while the anchor count stays the same. */
  function DrillFrom(t: Tree, n: nat): Drill
    requires Valid(t) && n < |t.nodes|
    decreases |t.nodes| - n
  {
    var children := Children(t, n);
    if |children| != 1 then Full(n)
    else
      var child := children[0];
      assert child in children;
      if AnchorCount(t, child) == AnchorCount(t, n) then DrillFrom(t, child) else KeepCommon
  }

  /** The drill-down of `get_profile_selector` (the `common != "."` branch). */
  method DrillDown(t: Tree, name1: nat) returns (d: Drill)
    requires Valid(t) && name1 < |t.nodes|
    ensures d == DrillFrom(t, name1)
  {
    var n1 := name1;
    var count := AnchorCount(t, n1);
    var n1Children := Children(t, n1);
    if |n1Children| != 1 {
      return Full(n1);
    }
    var n1Child := n1Children[0];
    var childCount := AnchorCount(t, n1Child);
    while count == childCount
      invariant n1 < |t.nodes|
      invariant n1Children == Children(t, n1) && |n1Children| == 1 && n1Child == n1Children[0]
      invariant count == AnchorCount(t, n1) && childCount == AnchorCount(t, n1Child)
      invariant DrillFrom(t, n1) == DrillFrom(t, name1)
      decreases |t.nodes| - n1
    {
      assert n1Child in n1Children;
      n1 := n1Child;
      count := childCount;
      n1Children := Children(t, n1);
      if |n1Children| != 1 {
        return Full(n1);
      }
      n1Child := n1Children[0];
      childCount := AnchorCount(t, n1Child);
    }
    d := KeepCommon;
  }

  /**
    The chain of only children from `n`: `n`, its only child, that one's only child,
    and so on, down to the first node whose child count is not one.
  */
  function OnlyChildChain(t: Tree, n: nat): (ch: seq<nat>)
    requires Valid(t) && n < |t.nodes|
    ensures |ch| >= 1 && ch[0] == n
    ensures forall k :: 0 <= k < |ch| ==> ch[k] < |t.nodes|
    ensures forall k :: 0 <= k < |ch| - 1 ==> Children(t, ch[k]) == [ch[k + 1]]
    ensures |Children(t, ch[|ch| - 1])| != 1
    decreases |t.nodes| - n
  {
    var children := Children(t, n);
    if |children| != 1 then [n]
    else
      assert children[0] in children;
      assert children == [children[0]];
      [n] + OnlyChildChain(t, children[0])
  }

  /**
    The drill-down walks the chain of only children below `n`. It ends with the full
    classes of the chain's last node (the first whose child count is not one) exactly
    when every node of the chain has the anchor count of `n`, and with the shared
    classes exactly when some only child on the chain has a different anchor count.
    A full-class node lies at or below `n`.
  */
  lemma DrillMeaning(t: Tree, n: nat)
    requires Valid(t) && n < |t.nodes|
    ensures var ch := OnlyChildChain(t, n);
      && (DrillFrom(t, n) == Full(ch[|ch| - 1]) <==> SameAnchorsAlong(t, ch))
      && (DrillFrom(t, n) == KeepCommon <==> exists k :: 0 < k < |ch| && AnchorCount(t, ch[k]) != AnchorCount(t, n))
    ensures DrillFrom(t, n).Full? ==>
      var m := DrillFrom(t, n).m;
      && m < |t.nodes| && (m == n || IsAncestor(t, n, m))
      && AnchorCount(t, m) == AnchorCount(t, n)
      && |Children(t, m)| != 1
  {
    DrillChain(t, n);
    DrillBelow(t, n);
  }

  /** Every node of the chain has the anchor count of its first node. */
  predicate SameAnchorsAlong(t: Tree, ch: seq<nat>)
    requires Valid(t) && |ch| >= 1
  {
    forall k :: 0 <= k < |ch| ==> AnchorCount(t, ch[k]) == AnchorCount(t, ch[0])
  }

  lemma {:induction false} DrillChain(t: Tree, n: nat)
    requires Valid(t) && n < |t.nodes|
    ensures var ch := OnlyChildChain(t, n);
      && (DrillFrom(t, n) == Full(ch[|ch| - 1]) <==> SameAnchorsAlong(t, ch))
      && (DrillFrom(t, n) == KeepCommon <==> !SameAnchorsAlong(t, ch))
    decreases |t.nodes| - n
  {
    var children := Children(t, n);
    var ch := OnlyChildChain(t, n);
    if |children| == 1 {
      var c := children[0];
      assert c in children;
      var rest := OnlyChildChain(t, c);
      assert ch == [n] + rest;
      if AnchorCount(t, c) == AnchorCount(t, n) {
        DrillChain(t, c);
        assert rest[0] == c;
        if SameAnchorsAlong(t, rest) {
          forall k | 0 < k < |ch| ensures AnchorCount(t, ch[k]) == AnchorCount(t, ch[0]) {
            assert ch[k] == rest[k - 1];
          }
        }
        if SameAnchorsAlong(t, ch) {
          forall k | 0 <= k < |rest| ensures AnchorCount(t, rest[k]) == AnchorCount(t, rest[0]) {
            assert rest[k] == ch[k + 1];
          }
        }
      } else {
        assert ch[1] == c;
      }
    }
  }

  lemma {:induction false} DrillBelow(t: Tree, n: nat)
    requires Valid(t) && n < |t.nodes|
    ensures DrillFrom(t, n).Full? ==>
      var m := DrillFrom(t, n).m;
      && m < |t.nodes| && (m == n || IsAncestor(t, n, m))
      && AnchorCount(t, m) == AnchorCount(t, n)
      && |Children(t, m)| != 1
    decreases |t.nodes| - n
  {
    var children := Children(t, n);
    if |children| == 1 && AnchorCount(t, children[0]) == AnchorCount(t, n) {
      var c := children[0];
      assert c in children;
      DrillBelow(t, c);
      var d := DrillFrom(t, c);
      if d.Full? && d.m != c {
        AncestorThrough(t, n, c, d.m);
      }
    }
  }

  lemma {:induction false} AncestorThrough(t: Tree, a: nat, b: nat, i: nat)
    requires Valid(t) && i < |t.nodes| && b < |t.nodes|
    requires 0 < b && ParentOf(t, b) == a && IsAncestor(t, b, i)
    ensures IsAncestor(t, a, i)
    decreases i
  {
    if ParentOf(t, i) != b {
      AncestorThrough(t, a, b, ParentOf(t, i));
    }
  }

  /** The tags from the document element down to `n`. */
  function PathTags(t: Tree, n: nat): seq<string>
    requires Valid(t) && n < |t.nodes|
    decreases n
  {
    if n == 0 then [t.nodes[0].tag] else PathTags(t, ParentOf(t, n)) + [t.nodes[n].tag]
  }

  /** The fallback loop: prepend the parent's tag until the document element has no parent. */
  method TagPathToRoot(t: Tree, name1: nat) returns (tags: seq<string>)
    requires Valid(t) && name1 < |t.nodes|
    ensures tags == PathTags(t, name1)
  {
    var n1 := name1;
    tags := [t.nodes[n1].tag];
    while n1 != 0
      invariant n1 < |t.nodes| && tags != [] && tags[0] == t.nodes[n1].tag
      invariant PathTags(t, name1) == PathTags(t, n1) + tags[1..]
      decreases n1
    {
      n1 := ParentOf(t, n1);
      tags := [t.nodes[n1].tag] + tags;
    }
  }

  /**
    The tag path has one tag per level from the root down to `n`, and as a
    child-combinator selector it matches `n` itself.
  */
  lemma {:induction false} PathTagsMeaning(t: Tree, n: nat)
    requires Valid(t) && n < |t.nodes|
    ensures |PathTags(t, n)| == Depth(t, n) + 1
    ensures forall k :: 0 <= k <= Depth(t, n) ==> PathTags(t, n)[k] == t.nodes[Up(t, n, Depth(t, n) - k)].tag
    ensures MatchesPath(t, PathTags(t, n), n)
    decreases n
  {
    if n != 0 {
      var p := ParentOf(t, n);
      PathTagsMeaning(t, p);
      var tags := PathTags(t, n);
      assert tags[..|tags| - 1] == PathTags(t, p);
      forall k | 0 <= k <= Depth(t, n) ensures tags[k] == t.nodes[Up(t, n, Depth(t, n) - k)].tag {
        if k < Depth(t, n) {
          assert Up(t, n, Depth(t, n) - k) == Up(t, p, Depth(t, p) - k);
        }
      }
    }
  }

  // ---------------------------------------------------------------------------
  // The selector

  /** The classes shared by the two climbed nodes. */
  function CommonClasses(t: Tree, n1: nat, n2: nat): set<string>
    requires n1 < |t.nodes| && n2 < |t.nodes|
  {
    set x | x in Classes(t, n1) && x in Classes(t, n2)
  }

  /** What `get_profile_selector` returns once the climb stopped at `n1`, `n2`. */
  ghost predicate SelectorFor(t: Tree, n1: nat, n2: nat, sel: Selector)
    requires Valid(t) && n1 < |t.nodes| && n2 < |t.nodes|
  {
    if CommonClasses(t, n1, n2) == {} then sel == TagPath(PathTags(t, n1))
    else match DrillFrom(t, n1)
      case Full(m) => m < |t.nodes| && sel == ClassSel(Classes(t, m))
      case KeepCommon =>
        sel.ClassSel? && Distinct(sel.tokens)
        && forall x :: x in sel.tokens <==> x in CommonClasses(t, n1, n2)
  }

  /**
    Whether the selector built from the climbed pair `n1`, `n2` is one the browser
    accepts: a tag path always is; a full class list is unless the node has no
    class; the shared classes always are, being non-empty.
  */
  predicate SelectorUsable(t: Tree, n1: nat, n2: nat)
    requires Valid(t) && n1 < |t.nodes| && n2 < |t.nodes|
  {
    CommonClasses(t, n1, n2) == {}
    || match DrillFrom(t, n1)
       case Full(m) => m < |t.nodes| && Classes(t, m) != []
       case KeepCommon => true
  }

  /** A selector `get_profile_selector` may return is well formed exactly when the pair is usable. */
  lemma SelectorForWellFormed(t: Tree, n1: nat, n2: nat, sel: Selector)
    requires Valid(t) && n1 < |t.nodes| && n2 < |t.nodes|
    requires SelectorFor(t, n1, n2, sel)
    ensures IsWellFormed(sel) <==> SelectorUsable(t, n1, n2)
  {
    if CommonClasses(t, n1, n2) == {} {
      assert |PathTags(t, n1)| > 0;
    } else if DrillFrom(t, n1).KeepCommon? {
      var x :| x in CommonClasses(t, n1, n2);
      assert x in sel.tokens;
    }
  }

  /**
    `get_profile_selector`: collect the names, climb the first pair that converges
    (or the last pair), then build a class selector (with the drill-down) or, when
    the two climbed nodes share no class, the tag path of the first.
  */
  method GetProfileSelector(t: Tree, nameSet: set<string>, nameLimit: nat) returns (r: Result<Selector, Error>)
    requires Valid(t)
    ensures var pick := PickPair(t, NameElements(t, nameSet, nameLimit), 0, None);
      && (pick.Failure? ==> r == Failure(pick.error))
      && (pick.Success? ==> r.Success? && SelectorFor(t, pick.value.n1, pick.value.n2, r.value))
  {
    var names := GetNameElements(t, nameSet, nameLimit);
    var last: Option<Climbed> := None;
    var i := 0;
    while i + 1 < |names|
      invariant last.Some? ==> last.value.n1 < |t.nodes| && last.value.n2 < |t.nodes|
      invariant PickPair(t, names, i, last) == PickPair(t, names, 0, None)
      decreases |names| - i
    {
      var name1, name2 := names[i], names[i + 1];
      if name1 == 0 || name2 == 0 {
        return Failure(NoParent);
      }
      var n1, n2, converged := ClimbToSiblings(t, name1, name2);
      last := Some(Climbed(n1, n2, converged));
      if converged {
        break;
      }
      i := i + 1;
    }
    if last.None? {
      return Failure(NotEnoughNames);
    }
    var sel := SelectorFromClimb(t, last.value.n1, last.value.n2);
    r := Success(sel);
  }

  /**
    The part of `get_profile_selector` after the climb: the shared classes of the two
    climbed nodes as a selector, refined by the drill-down, or the tag path of `n1`
    when they share no class.
  */
  method SelectorFromClimb(t: Tree, n1: nat, n2: nat) returns (r: Selector)
    requires Valid(t) && n1 < |t.nodes| && n2 < |t.nodes|
    ensures SelectorFor(t, n1, n2, r)
  {
    var common := ReturnTokenIntersection(Classes(t, n1), Classes(t, n2));
    forall x | x in common ensures IsToken(x) {
      assert x in Classes(t, n1);
    }
    if CssClassTokensToSelector(common) != "." {
      assert common[0] in CommonClasses(t, n1, n2);
      var d := DrillDown(t, n1);
      DrillMeaning(t, n1);
      match d
      case Full(m) =>
        r := ClassSel(Classes(t, m));
      case KeepCommon =>
        r := ClassSel(common);
    } else {
      assert CommonClasses(t, n1, n2) == {};
      var tags := TagPathToRoot(t, n1);
      r := TagPath(tags);
    }
  }

  /**
    Inference is repeatable on an unchanged page: two results for the same climb may
    list shared classes in different orders but select exactly the same elements.
  */
  lemma SelectorForIsRepeatable(t: Tree, n1: nat, n2: nat, s1: Selector, s2: Selector)
    requires Valid(t) && n1 < |t.nodes| && n2 < |t.nodes|
    requires SelectorFor(t, n1, n2, s1) && SelectorFor(t, n1, n2, s2)
    ensures forall i :: 0 <= i < |t.nodes| ==> (Matches(t, s1, i) <==> Matches(t, s2, i))
  {
    if s1 != s2 {
      forall i | 0 <= i < |t.nodes| ensures Matches(t, s1, i) <==> Matches(t, s2, i) {
        if HasClasses(t, s1.tokens, i) {
          forall k | 0 <= k < |s2.tokens| ensures s2.tokens[k] in Classes(t, i) {
            assert s2.tokens[k] in s1.tokens;
          }
        }
        if HasClasses(t, s2.tokens, i) {
          forall k | 0 <= k < |s1.tokens| ensures s1.tokens[k] in Classes(t, i) {
            assert s1.tokens[k] in s2.tokens;
          }
        }
      }
    }
  }

  /**
    A usable inferred selector picks out the element it was built from: the
    climbed node `n1` itself, or (after the drill-down) a node below it.
  */
  lemma SelectorMatchesItsSource(t: Tree, n1: nat, n2: nat, sel: Selector) returns (m: nat)
    requires Valid(t) && n1 < |t.nodes| && n2 < |t.nodes|
    requires SelectorFor(t, n1, n2, sel) && IsWellFormed(sel)
    ensures m < |t.nodes| && (m == n1 || IsAncestor(t, n1, m)) && Matches(t, sel, m)
  {
    DrillMeaning(t, n1);
    if CommonClasses(t, n1, n2) == {} {
      m := n1;
      PathTagsMeaning(t, n1);
    } else {
      match DrillFrom(t, n1)
      case Full(d) =>
        m := d;
      case KeepCommon =>
        m := n1;
        forall k | 0 <= k < |sel.tokens| ensures sel.tokens[k] in Classes(t, n1) {
          assert sel.tokens[k] in CommonClasses(t, n1, n2);
        }
    }
  }
}
