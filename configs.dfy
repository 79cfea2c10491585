/**
  The search configurations of `process_team_page`: the select elements of the
  team page that offer a key option, and every way of picking one key option from
  each of them.
*/
module SearchConfigs {
  import opened Strings
  import opened Dom
  import opened Constants
  import opened Browser

  /** A select element and the texts of its key options, in order. */
  datatype KeySelect = KeySelect(select: nat, options: seq<string>)

  type Config = seq<Choice>

  // ---------------------------------------------------------------------------
  // Option filter

  /** The options of `opts` whose lower-cased text is in one of the three vocabularies, original case kept. */
  function KeptOptions(t: Tree, opts: seq<nat>, v: Vocabulary): (r: seq<string>)
    requires forall k :: 0 <= k < |opts| ==> opts[k] < |t.nodes|
    decreases |opts|
  {
    if opts == [] then []
    else
      var init := KeptOptions(t, opts[..|opts| - 1], v);
      var text := t.nodes[opts[|opts| - 1]].text;
      if IsKeyOption(v, Lower(text)) then init + [text] else init
  }

  /** `Select(select_tag).options`: the option elements below a select. */
  function OptionsOf(t: Tree, s: nat): (r: seq<nat>)
    requires Valid(t)
    ensures forall k :: 0 <= k < |r| ==> r[k] < |t.nodes|
  {
    FindAll(t, TagBelow(s, "option"))
  }

  /** The kept options of each of `selects`, in order. */
  function KeptLists(t: Tree, selects: seq<nat>, v: Vocabulary): (r: seq<seq<string>>)
    requires Valid(t)
    ensures |r| == |selects|
    ensures forall k :: 0 <= k < |r| ==> r[k] == KeptOptions(t, OptionsOf(t, selects[k]), v)
  {
    seq(|selects|, k requires 0 <= k < |selects| => KeptOptions(t, OptionsOf(t, selects[k]), v))
  }

  /** The selects whose kept list is non-empty, each with that list, in order. */
  function Retained(selects: seq<nat>, kept: seq<seq<string>>): seq<KeySelect>
    requires |kept| == |selects|
    decreases |selects|
  {
    if selects == [] then []
    else
      var init := Retained(selects[..|selects| - 1], kept[..|kept| - 1]);
      if kept[|kept| - 1] != [] then init + [KeySelect(selects[|selects| - 1], kept[|kept| - 1])] else init
  }

  /** The selects of `selects` with at least one key option, each with those options. */
  function KeySelectsFrom(t: Tree, selects: seq<nat>, v: Vocabulary): seq<KeySelect>
    requires Valid(t)
  {
    Retained(selects, KeptLists(t, selects, v))
  }

  /** `key_selects` of a team page. */
  function KeySelectsOf(t: Tree, v: Vocabulary): seq<KeySelect>
    requires Valid(t)
  {
    KeySelectsFrom(t, FindAll(t, TagAnywhere("select")), v)
  }

  /** The kept options are exactly the options whose lower case is in a vocabulary. */
  lemma {:induction false} KeptOptionsMeaning(t: Tree, opts: seq<nat>, v: Vocabulary)
    requires forall k :: 0 <= k < |opts| ==> opts[k] < |t.nodes|
    ensures forall x :: x in KeptOptions(t, opts, v) <==>
      exists k :: 0 <= k < |opts| && t.nodes[opts[k]].text == x && IsKeyOption(v, Lower(x))
    decreases |opts|
  {
    if opts != [] {
      var init := opts[..|opts| - 1];
      KeptOptionsMeaning(t, init, v);
      forall x ensures x in KeptOptions(t, opts, v) <==>
        exists k :: 0 <= k < |opts| && t.nodes[opts[k]].text == x && IsKeyOption(v, Lower(x))
      {
        if exists k :: 0 <= k < |opts| && t.nodes[opts[k]].text == x && IsKeyOption(v, Lower(x)) {
          var k :| 0 <= k < |opts| && t.nodes[opts[k]].text == x && IsKeyOption(v, Lower(x));
          if k < |init| {
            assert init[k] == opts[k];
          }
        }
        if exists k :: 0 <= k < |init| && t.nodes[init[k]].text == x && IsKeyOption(v, Lower(x)) {
          var k :| 0 <= k < |init| && t.nodes[init[k]].text == x && IsKeyOption(v, Lower(x));
          assert opts[k] == init[k];
        }
      }
    }
  }

  /** Each retained select is one of the selects, with its non-empty kept list. */
  lemma {:induction false} RetainedOptions(selects: seq<nat>, kept: seq<seq<string>>)
    requires |kept| == |selects|
    ensures var ks := Retained(selects, kept);
      && |ks| <= |selects|
      && forall j :: 0 <= j < |ks| ==> ks[j].options != [] && exists k :: 0 <= k < |selects| && ks[j] == KeySelect(selects[k], kept[k])
    decreases |selects|
  {
    if selects != [] {
      var n := |selects| - 1;
      RetainedOptions(selects[..n], kept[..n]);
      var ki := Retained(selects[..n], kept[..n]);
      forall j | 0 <= j < |ki| ensures exists k :: 0 <= k < |selects| && ki[j] == KeySelect(selects[k], kept[k]) {
        var k :| 0 <= k < n && ki[j] == KeySelect(selects[..n][k], kept[..n][k]);
        assert selects[..n][k] == selects[k] && kept[..n][k] == kept[k];
      }
    }
  }

  /** A select is retained exactly when it has a non-empty kept list. */
  lemma {:induction false} RetainedHas(selects: seq<nat>, kept: seq<seq<string>>, s: nat)
    requires |kept| == |selects|
    ensures (exists k :: 0 <= k < |selects| && selects[k] == s && kept[k] != []) <==>
      exists j :: 0 <= j < |Retained(selects, kept)| && Retained(selects, kept)[j].select == s
    decreases |selects|
  {
    if selects != [] {
      var n := |selects| - 1;
      var si, ki := selects[..n], kept[..n];
      RetainedHas(si, ki, s);
      var ks := Retained(selects, kept);
      var rs := Retained(si, ki);
      if exists k :: 0 <= k < |selects| && selects[k] == s && kept[k] != [] {
        var k :| 0 <= k < |selects| && selects[k] == s && kept[k] != [];
        if k < n {
          assert si[k] == s && ki[k] != [];
          var j :| 0 <= j < |rs| && rs[j].select == s;
          assert ks[j] == rs[j];
        } else {
          assert ks[|rs|].select == s;
        }
      }
      if exists j :: 0 <= j < |ks| && ks[j].select == s {
        var j :| 0 <= j < |ks| && ks[j].select == s;
        if j < |rs| {
          assert rs[j].select == s;
          var k :| 0 <= k < n && si[k] == s && ki[k] != [];
          assert selects[k] == s && kept[k] != [];
        } else {
          assert selects[n] == s && kept[n] != [];
        }
      }
    }
  }

  /**
    A select is retained exactly when one of its options lower-cases into a
    vocabulary, and then with a non-empty list of such options; selects keep
    their document order.
  */
  lemma KeySelectsMeaning(t: Tree, selects: seq<nat>, v: Vocabulary)
    requires Valid(t)
    ensures var ks := KeySelectsFrom(t, selects, v);
      && (forall j :: 0 <= j < |ks| ==> ks[j].options != [] && ks[j].options == KeptOptions(t, OptionsOf(t, ks[j].select), v))
      && (forall s: nat :: s in selects && KeptOptions(t, OptionsOf(t, s), v) != [] <==> exists j :: 0 <= j < |ks| && ks[j].select == s)
      && |ks| <= |selects|
  {
    var ks := KeySelectsFrom(t, selects, v);
    RetainedOptions(selects, KeptLists(t, selects, v));
    forall j | 0 <= j < |ks| ensures ks[j].options == KeptOptions(t, OptionsOf(t, ks[j].select), v) {
      KeySelectOptionsAt(t, selects, v, j);
    }
    forall s: nat ensures s in selects && KeptOptions(t, OptionsOf(t, s), v) != [] <==> exists j :: 0 <= j < |ks| && ks[j].select == s {
      KeySelectsHasOne(t, selects, v, s);
    }
  }

  lemma KeySelectOptionsAt(t: Tree, selects: seq<nat>, v: Vocabulary, j: nat)
    requires Valid(t) && j < |KeySelectsFrom(t, selects, v)|
    ensures var ks := KeySelectsFrom(t, selects, v); ks[j].options == KeptOptions(t, OptionsOf(t, ks[j].select), v)
  {
    var kept := KeptLists(t, selects, v);
    RetainedOptions(selects, kept);
    var k :| 0 <= k < |selects| && Retained(selects, kept)[j] == KeySelect(selects[k], kept[k]);
  }

  lemma KeySelectsHasOne(t: Tree, selects: seq<nat>, v: Vocabulary, s: nat)
    requires Valid(t)
    ensures var ks := KeySelectsFrom(t, selects, v);
      s in selects && KeptOptions(t, OptionsOf(t, s), v) != [] <==> exists j :: 0 <= j < |ks| && ks[j].select == s
  {
    var kept := KeptLists(t, selects, v);
    RetainedHas(selects, kept, s);
    if s in selects && KeptOptions(t, OptionsOf(t, s), v) != [] {
      var k :| 0 <= k < |selects| && selects[k] == s;
      assert kept[k] != [];
    }
  }

  lemma KeySelectsFromSnoc(t: Tree, selects: seq<nat>, v: Vocabulary, i: nat)
    requires Valid(t) && i < |selects|
    ensures var kept := KeptOptions(t, OptionsOf(t, selects[i]), v);
      KeySelectsFrom(t, selects[..i + 1], v)
        == KeySelectsFrom(t, selects[..i], v) + (if kept != [] then [KeySelect(selects[i], kept)] else [])
  {
    var pre := selects[..i + 1];
    assert pre[..i] == selects[..i];
    assert KeptLists(t, pre, v)[..i] == KeptLists(t, selects[..i], v);
  }

  /**
    The select loop of `process_team_page`: for each select element, the texts of
    its options whose lower case is in a vocabulary; the select is kept when there
    is one.
  */
  method KeySelects(t: Tree, v: Vocabulary) returns (ks: seq<KeySelect>)
    requires Valid(t)
    ensures ks == KeySelectsOf(t, v)
  {
    var selectTags := FindAll(t, TagAnywhere("select"));
    ks := [];
    for i := 0 to |selectTags|
      invariant ks == KeySelectsFrom(t, selectTags[..i], v)
    {
      var options := OptionsOf(t, selectTags[i]);
      var keyOptionsText := [];
      for j := 0 to |options|
        invariant keyOptionsText == KeptOptions(t, options[..j], v)
      {
        assert options[..j + 1][..j] == options[..j];
        var text := t.nodes[options[j]].text;
        if IsKeyOption(v, Lower(text)) {
          keyOptionsText := keyOptionsText + [text];
        }
      }
      assert options[..|options|] == options;
      KeySelectsFromSnoc(t, selectTags, v, i);
      if keyOptionsText != [] {
        ks := ks + [KeySelect(selectTags[i], keyOptionsText)];
      }
    }
    assert selectTags[..|selectTags|] == selectTags;
  }

  // ---------------------------------------------------------------------------
  // The cross product

  /** `add_configs(idx, ..., config)`: every completion of `config` by one key option per select from `idx` on. */
  function ConfigsFrom(ks: seq<KeySelect>, idx: nat, config: Config): seq<Config>
    requires idx <= |ks|
    decreases |ks| - idx, 1, 0
  {
    if idx == |ks| then [config]
    else Expand(ks, idx, config, ks[idx].options)
  }

  /** The completions for select `idx` taking each of `opts` in turn. */
  function Expand(ks: seq<KeySelect>, idx: nat, config: Config, opts: seq<string>): seq<Config>
    requires idx < |ks|
    decreases |ks| - idx, 0, |opts|
  {
    if opts == [] then []
    else
      Expand(ks, idx, config, opts[..|opts| - 1])
        + ConfigsFrom(ks, idx + 1, config + [Choice(ks[idx].select, opts[|opts| - 1])])
  }

  /**
    `add_configs(idx, configs, config)`: appends to `configs` every completion of
    `config`, one key option per select from `idx` on, options in order.
  */
  method AddConfigs(ks: seq<KeySelect>, idx: nat, configs: seq<Config>, config: Config) returns (out: seq<Config>)
    requires idx <= |ks|
    ensures out == configs + ConfigsFrom(ks, idx, config)
    decreases |ks| - idx
  {
    if idx == |ks| {
      return configs + [config];
    }
    var keySelect := ks[idx];
    out := configs;
    for j := 0 to |keySelect.options|
      invariant out == configs + Expand(ks, idx, config, keySelect.options[..j])
    {
      var opts := keySelect.options[..j + 1];
      assert opts[..j] == keySelect.options[..j];
      var newConfig := config + [Choice(keySelect.select, keySelect.options[j])];
      out := AddConfigs(ks, idx + 1, out, newConfig);
    }
    assert keySelect.options[..|keySelect.options|] == keySelect.options;
  }

  /** The number of option choices from select `idx` on. */
  function Product(ks: seq<KeySelect>, idx: nat): nat
    requires idx <= |ks|
    decreases |ks| - idx
  {
    if idx == |ks| then 1 else |ks[idx].options| * Product(ks, idx + 1)
  }

  /** There are as many configurations as the product of the option counts. */
  lemma {:induction false} ConfigCount(ks: seq<KeySelect>, idx: nat, config: Config)
    requires idx <= |ks|
    ensures |ConfigsFrom(ks, idx, config)| == Product(ks, idx)
    decreases |ks| - idx, 1, 0
  {
    if idx < |ks| {
      ExpandCount(ks, idx, config, ks[idx].options);
    }
  }

  lemma {:induction false} ExpandCount(ks: seq<KeySelect>, idx: nat, config: Config, opts: seq<string>)
    requires idx < |ks|
    ensures |Expand(ks, idx, config, opts)| == |opts| * Product(ks, idx + 1)
    decreases |ks| - idx, 0, |opts|
  {
    if opts != [] {
      var p := Product(ks, idx + 1);
      ExpandCount(ks, idx, config, opts[..|opts| - 1]);
      ConfigCount(ks, idx + 1, config + [Choice(ks[idx].select, opts[|opts| - 1])]);
      MulSucc(|opts| - 1, p);
    }
  }

  lemma MulSucc(a: nat, p: nat)
    ensures a * p + p == (a + 1) * p
  {
  }

  /** `c` extends `config` by one key option of each select from `idx` on, in select order. */
  predicate Completes(ks: seq<KeySelect>, idx: nat, config: Config, c: Config)
    requires idx <= |ks|
  {
    && |c| == |config| + |ks| - idx
    && c[..|config|] == config
    && forall j :: idx <= j < |ks| ==>
         c[|config| + j - idx].select == ks[j].select && c[|config| + j - idx].option in ks[j].options
  }

  /** The configurations are exactly the completions: the full cross product. */
  lemma {:induction false} ConfigsAreCompletions(ks: seq<KeySelect>, idx: nat, config: Config)
    requires idx <= |ks|
    ensures forall c: Config :: c in ConfigsFrom(ks, idx, config) <==> Completes(ks, idx, config, c)
    decreases |ks| - idx, 1, 0
  {
    if idx == |ks| {
      forall c: Config ensures c in ConfigsFrom(ks, idx, config) <==> Completes(ks, idx, config, c) {
        if Completes(ks, idx, config, c) {
          assert c == c[..|config|];
        }
      }
    } else {
      ExpandAreCompletions(ks, idx, config, ks[idx].options);
      forall c: Config ensures c in ConfigsFrom(ks, idx, config) <==> Completes(ks, idx, config, c) {
        CompletesStep(ks, idx, config, c);
      }
    }
  }

  /** Completing from `idx` is choosing for select `idx`, then completing from `idx + 1`. */
  lemma CompletesStep(ks: seq<KeySelect>, idx: nat, config: Config, c: Config)
    requires idx < |ks|
    ensures Completes(ks, idx, config, c) <==>
      |c| > |config| && c[..|config|] == config && c[|config|].select == ks[idx].select
        && c[|config|].option in ks[idx].options && Completes(ks, idx + 1, config + [c[|config|]], c)
  {
    var n := |config|;
    if |c| > n {
      var x := c[n];
      assert c[..n + 1] == c[..n] + [x];
      if c[..n + 1] == config + [x] {
        assert c[..n] == c[..n + 1][..n];
      }
      if Completes(ks, idx + 1, config + [x], c) {
        forall j | idx + 1 <= j < |ks|
          ensures c[n + j - idx].select == ks[j].select && c[n + j - idx].option in ks[j].options
        {
          assert n + j - idx == (n + 1) + j - (idx + 1);
        }
      }
    }
  }

  lemma {:induction false} ExpandAreCompletions(ks: seq<KeySelect>, idx: nat, config: Config, opts: seq<string>)
    requires idx < |ks|
    ensures forall c: Config :: c in Expand(ks, idx, config, opts) <==>
      |c| > |config| && c[..|config|] == config && c[|config|].select == ks[idx].select
        && c[|config|].option in opts && Completes(ks, idx + 1, config + [c[|config|]], c)
    decreases |ks| - idx, 0, |opts|
  {
    if opts != [] {
      var init := opts[..|opts| - 1];
      var o := opts[|opts| - 1];
      var choice := Choice(ks[idx].select, o);
      ExpandAreCompletions(ks, idx, config, init);
      ConfigsAreCompletions(ks, idx + 1, config + [choice]);
      forall c: Config ensures c in Expand(ks, idx, config, opts) <==>
        |c| > |config| && c[..|config|] == config && c[|config|].select == ks[idx].select
          && c[|config|].option in opts && Completes(ks, idx + 1, config + [c[|config|]], c)
      {
        assert forall x :: x in opts <==> x in init || x == o;
        if c in ConfigsFrom(ks, idx + 1, config + [choice]) {
          assert c[..|config| + 1] == config + [choice];
          assert c[|config|] == (config + [choice])[|config|];
          assert c[..|config|] == c[..|config| + 1][..|config|];
        }
        if |c| > |config| && c[|config|] == choice && Completes(ks, idx + 1, config + [choice], c) {
          assert c in ConfigsFrom(ks, idx + 1, config + [choice]);
        }
      }
    }
  }

  /** From the start: a configuration picks, for every retained select in order, one of its key options. */
  lemma CrossProduct(ks: seq<KeySelect>)
    ensures forall c: Config :: c in ConfigsFrom(ks, 0, []) <==>
      |c| == |ks| && forall j :: 0 <= j < |ks| ==> c[j].select == ks[j].select && c[j].option in ks[j].options
    ensures |ConfigsFrom(ks, 0, [])| == Product(ks, 0)
  {
    ConfigsAreCompletions(ks, 0, []);
    ConfigCount(ks, 0, []);
    forall c: Config ensures Completes(ks, 0, [], c) <==>
      |c| == |ks| && forall j :: 0 <= j < |ks| ==> c[j].select == ks[j].select && c[j].option in ks[j].options
    {
      assert |c| == 0 + |ks| - 0 ==> c[..0] == [];
    }
  }

  /**
    The search is skipped exactly when no select was retained: with retained
    selects (all of which have options) the configurations are never `[[]]`.
  */
  lemma NoSearchIffNoKeySelects(ks: seq<KeySelect>)
    requires forall j :: 0 <= j < |ks| ==> ks[j].options != []
    ensures ConfigsFrom(ks, 0, []) == [[]] <==> ks == []
  {
    CrossProduct(ks);
    if ks != [] {
      assert [] !in ConfigsFrom(ks, 0, []);
    }
  }

  /**
    The configurations `process_team_page` runs on page `t`: one per choice of a
    key option in every retained select. The search is skipped exactly when no
    select was retained.
  */
  method SearchConfigsOf(t: Tree, v: Vocabulary) returns (configs: seq<Config>)
    requires Valid(t)
    ensures configs == ConfigsFrom(KeySelectsOf(t, v), 0, [])
    ensures (|configs| == 1 && configs[0] == []) <==> KeySelectsOf(t, v) == []
  {
    var keySelects := KeySelects(t, v);
    configs := AddConfigs(keySelects, 0, [], []);
    RetainedOptions(FindAll(t, TagAnywhere("select")), KeptLists(t, FindAll(t, TagAnywhere("select")), v));
    NoSearchIffNoKeySelects(keySelects);
    assert (|configs| == 1 && configs[0] == []) <==> configs == [[]];
  }

  // ---------------------------------------------------------------------------
  // The order of the configurations

  /** Every select from `idx` on has at least one key option (the retained ones do). */
  predicate AllHaveOptions(ks: seq<KeySelect>, idx: nat) {
    forall j :: idx <= j < |ks| ==> ks[j].options != []
  }

  lemma {:induction false} ProductPositive(ks: seq<KeySelect>, idx: nat)
    requires idx <= |ks| && AllHaveOptions(ks, idx)
    ensures Product(ks, idx) > 0
    decreases |ks| - idx
  {
    if idx < |ks| {
      ProductPositive(ks, idx + 1);
      assert |ks[idx].options| > 0;
    }
  }

  /**
    The option number configuration `k` takes for select `j`: digit `j` of `k`
    written in the mixed radix of the option counts, select 0 the most significant.
  */
  function Digit(ks: seq<KeySelect>, k: nat, j: nat): (d: nat)
    requires j < |ks| && AllHaveOptions(ks, j)
    ensures d < |ks[j].options|
  {
    ProductPositive(ks, j + 1);
    (k / Product(ks, j + 1)) % |ks[j].options|
  }

  /** Euclidean division is determined by any quotient and remainder that fit. */
  lemma DivUnique(x: int, q: int, d: int, m: int)
    requires q > 0 && 0 <= m < q && x == d * q + m
    ensures x / q == d && x % q == m
  {
    var d', m' := x / q, x % q;
    assert x == d' * q + m';
    var e := d - d';
    assert e * q == m' - m by {
      assert d * q - d' * q == (d - d') * q;
    }
    MulGrows(e, q);
  }

  /** A non-zero multiple of a positive number is at least that number in size. */
  lemma MulGrows(e: int, q: int)
    requires q > 0
    ensures e >= 1 ==> e * q >= q
    ensures e <= -1 ==> e * q <= -q
  {
    if e >= 1 {
      assert e * q == (e - 1) * q + q;
    } else if e <= -1 {
      assert e * q == (e + 1) * q - q;
    }
  }

  /** Multiplying by a natural number keeps the order. */
  lemma MulMonotone(a: nat, b: nat, p: nat)
    ensures a >= b ==> a * p >= b * p
  {
    if a >= b {
      assert a * p == b * p + (a - b) * p;
    }
  }

  lemma DivAddMultiple(a: nat, q: nat, r: nat)
    requires q > 0
    ensures (a * q + r) / q == a + r / q
  {
    assert a * q + r == (a + r / q) * q + r % q;
    DivUnique(a * q + r, q, a + r / q, r % q);
  }

  lemma ModAddMultiple(b: nat, n: nat, s: nat)
    requires n > 0
    ensures (b * n + s) % n == s % n
  {
    assert b * n + s == (b + s / n) * n + s % n;
    DivUnique(b * n + s, n, b + s / n, s % n);
  }

  /** The option count of select `j` and everything after it divide the product from `a` on. */
  lemma {:induction false} ProductFactor(ks: seq<KeySelect>, a: nat, j: nat) returns (m: nat)
    requires a <= j < |ks|
    ensures Product(ks, a) == m * (|ks[j].options| * Product(ks, j + 1))
    decreases j - a
  {
    if a == j {
      m := 1;
    } else {
      var m' := ProductFactor(ks, a + 1, j);
      m := |ks[a].options| * m';
      calc {
        Product(ks, a);
        |ks[a].options| * Product(ks, a + 1);
        |ks[a].options| * (m' * (|ks[j].options| * Product(ks, j + 1)));
        (|ks[a].options| * m') * (|ks[j].options| * Product(ks, j + 1));
      }
    }
  }

  /** Block `q` of `m` blocks of `p` places, place `r` in it, lies before block `m`. */
  lemma BlockBound(q: nat, r: nat, p: nat, m: nat)
    requires q < m && r < p
    ensures q * p + r < m * p
  {
    var e := m - q - 1;
    assert m * p == q * p + e * p + p;
    assert e * p >= 0;
  }

  /** A place below `n` blocks of `p` lies in a block below `n`. */
  lemma QuotientBound(k: nat, p: nat, n: nat)
    requires p > 0 && k < n * p
    ensures k / p < n
  {
    var q := k / p;
    assert q * p <= k;
    MulMonotone(q, n, p);
  }

  lemma Regroup(q: nat, m: nat, nj: nat, t: nat)
    ensures q * (m * (nj * t)) == (q * m * nj) * t
  {
  }

  /** Place `q * p + r` of `Expand` is place `r` of the completions with option `q`. */
  lemma {:induction false} ExpandAt(ks: seq<KeySelect>, idx: nat, config: Config, opts: seq<string>, q: nat, r: nat)
    requires idx < |ks| && q < |opts| && r < Product(ks, idx + 1)
    ensures var p := Product(ks, idx + 1);
      && q * p + r < |Expand(ks, idx, config, opts)|
      && r < |ConfigsFrom(ks, idx + 1, config + [Choice(ks[idx].select, opts[q])])|
      && Expand(ks, idx, config, opts)[q * p + r] == ConfigsFrom(ks, idx + 1, config + [Choice(ks[idx].select, opts[q])])[r]
    decreases |opts|
  {
    var p := Product(ks, idx + 1);
    var n := |opts|;
    var init := opts[..n - 1];
    var before := Expand(ks, idx, config, init);
    var last := ConfigsFrom(ks, idx + 1, config + [Choice(ks[idx].select, opts[n - 1])]);
    assert Expand(ks, idx, config, opts) == before + last;
    ExpandCount(ks, idx, config, init);
    ConfigCount(ks, idx + 1, config + [Choice(ks[idx].select, opts[q])]);
    ConfigCount(ks, idx + 1, config + [Choice(ks[idx].select, opts[n - 1])]);
    ExpandCount(ks, idx, config, opts);
    BlockBound(q, r, p, n);
    if q < n - 1 {
      ExpandAt(ks, idx, config, init, q, r);
      assert init[q] == opts[q];
      BlockBound(q, r, p, n - 1);
    } else {
      assert q == n - 1;
    }
  }

  /**
    Configuration `k` from select `idx` on extends `config` and takes, for each
    select `j`, option number `Digit(ks, k, j)`.
  */
  lemma {:induction false} ConfigsAt(ks: seq<KeySelect>, idx: nat, config: Config, k: nat)
    requires idx <= |ks| && AllHaveOptions(ks, idx) && k < Product(ks, idx)
    ensures k < |ConfigsFrom(ks, idx, config)|
    ensures TakesDigits(ks, idx, config, k, ConfigsFrom(ks, idx, config)[k])
    decreases |ks| - idx
  {
    ConfigCount(ks, idx, config);
    if idx < |ks| {
      var opts := ks[idx].options;
      var q, r := Split(ks, idx, k);
      var config' := config + [Choice(ks[idx].select, opts[q])];
      ExpandAt(ks, idx, config, opts, q, r);
      ConfigsAt(ks, idx + 1, config', r);
      DigitsShift(ks, idx, q, r);
      TakesDigitsStep(ks, idx, config, k, r, ConfigsFrom(ks, idx + 1, config')[r]);
    }
  }

  /** Place `k` below the product from `idx` on is place `r` of the completions choosing option `q` of select `idx`. */
  lemma Split(ks: seq<KeySelect>, idx: nat, k: nat) returns (q: nat, r: nat)
    requires idx < |ks| && AllHaveOptions(ks, idx) && k < Product(ks, idx)
    ensures q < |ks[idx].options| && r < Product(ks, idx + 1)
    ensures k == q * Product(ks, idx + 1) + r
  {
    var p := Product(ks, idx + 1);
    ProductPositive(ks, idx + 1);
    q, r := k / p, k % p;
    QuotientBound(k, p, |ks[idx].options|);
  }

  /** `c` extends `config` and takes option number `Digit(ks, k, j)` for each select `j` from `idx` on. */
  ghost predicate TakesDigits(ks: seq<KeySelect>, idx: nat, config: Config, k: nat, c: Config)
    requires idx <= |ks| && AllHaveOptions(ks, idx)
  {
    && |c| == |config| + |ks| - idx && c[..|config|] == config
    && forall j :: idx <= j < |ks| ==> c[|config| + j - idx] == Choice(ks[j].select, ks[j].options[Digit(ks, k, j)])
  }

  /** Digit `idx` of `k` chooses the option `k` starts with; the later digits are those of the rest `r`. */
  lemma TakesDigitsStep(ks: seq<KeySelect>, idx: nat, config: Config, k: nat, r: nat, c: Config)
    requires idx < |ks| && AllHaveOptions(ks, idx)
    requires var d := Digit(ks, k, idx);
      TakesDigits(ks, idx + 1, config + [Choice(ks[idx].select, ks[idx].options[d])], r, c)
    requires forall j :: idx < j < |ks| ==> Digit(ks, k, j) == Digit(ks, r, j)
    ensures TakesDigits(ks, idx, config, k, c)
  {
    var config' := config + [Choice(ks[idx].select, ks[idx].options[Digit(ks, k, idx)])];
    assert c[..|config|] == c[..|config'|][..|config|];
    assert c[|config|] == c[..|config'|][|config|];
    forall j | idx < j < |ks|
      ensures c[|config| + j - idx] == Choice(ks[j].select, ks[j].options[Digit(ks, k, j)])
    {
      assert |config| + j - idx == |config'| + j - (idx + 1);
    }
  }

  /** Digit `idx` of `q * p + r` is `q`, and its later digits are those of `r`. */
  lemma DigitsShift(ks: seq<KeySelect>, idx: nat, q: nat, r: nat)
    requires idx < |ks| && AllHaveOptions(ks, idx)
    requires q < |ks[idx].options| && r < Product(ks, idx + 1)
    ensures Digit(ks, q * Product(ks, idx + 1) + r, idx) == q
    ensures forall j :: idx < j < |ks| ==> Digit(ks, q * Product(ks, idx + 1) + r, j) == Digit(ks, r, j)
  {
    DigitHead(ks, idx, q, r);
    forall j | idx < j < |ks|
      ensures Digit(ks, q * Product(ks, idx + 1) + r, j) == Digit(ks, r, j)
    {
      DigitAfter(ks, idx, j, q, r);
    }
  }

  lemma DigitHead(ks: seq<KeySelect>, idx: nat, q: nat, r: nat)
    requires idx < |ks| && AllHaveOptions(ks, idx)
    requires q < |ks[idx].options| && r < Product(ks, idx + 1)
    ensures Digit(ks, q * Product(ks, idx + 1) + r, idx) == q
  {
    var p := Product(ks, idx + 1);
    ProductPositive(ks, idx + 1);
    DivUnique(q * p + r, p, q, r);
    DivUnique(q, |ks[idx].options|, 0, q);
  }

  /** A later select's digit of `q * p + r` is that of `r`, `p` being the product after select `idx`. */
  lemma DigitAfter(ks: seq<KeySelect>, idx: nat, j: nat, q: nat, r: nat)
    requires idx < j < |ks| && AllHaveOptions(ks, j)
    ensures Digit(ks, q * Product(ks, idx + 1) + r, j) == Digit(ks, r, j)
  {
    var nj := |ks[j].options|;
    var t := Product(ks, j + 1);
    ProductPositive(ks, j + 1);
    var m := ProductFactor(ks, idx + 1, j);
    DigitOfMultiple(q, m, nj, t, r);
  }

  /** Adding a multiple of `nj * t` to `r` leaves digit `(r / t) % nj` alone. */
  lemma DigitOfMultiple(q: nat, m: nat, nj: nat, t: nat, r: nat)
    requires nj > 0 && t > 0
    ensures ((q * (m * (nj * t)) + r) / t) % nj == (r / t) % nj
  {
    Regroup(q, m, nj, t);
    DivAddMultiple(q * m * nj, t, r);
    ModAddMultiple(q * m, nj, r / t);
  }

  /**
    `add_configs` lists the cross product in lexicographic order: configuration
    `k` takes, for select `j`, the option whose number is digit `j` of `k` in the
    mixed radix of the option counts, like an odometer whose last select turns fastest.
  */
  lemma ConfigOrder(ks: seq<KeySelect>)
    requires AllHaveOptions(ks, 0)
    ensures |ConfigsFrom(ks, 0, [])| == Product(ks, 0)
    ensures forall k :: 0 <= k < Product(ks, 0) ==>
      && |ConfigsFrom(ks, 0, [])[k]| == |ks|
      && forall j :: 0 <= j < |ks| ==> ConfigsFrom(ks, 0, [])[k][j] == Choice(ks[j].select, ks[j].options[Digit(ks, k, j)])
  {
    ConfigCount(ks, 0, []);
    forall k | 0 <= k < Product(ks, 0)
      ensures |ConfigsFrom(ks, 0, [])[k]| == |ks|
      ensures forall j :: 0 <= j < |ks| ==> ConfigsFrom(ks, 0, [])[k][j] == Choice(ks[j].select, ks[j].options[Digit(ks, k, j)])
    {
      ConfigsAt(ks, 0, [], k);
      FromStart(ks, k, ConfigsFrom(ks, 0, [])[k]);
    }
  }

  lemma FromStart(ks: seq<KeySelect>, k: nat, c: Config)
    requires AllHaveOptions(ks, 0) && TakesDigits(ks, 0, [], k, c)
    ensures |c| == |ks|
    ensures forall j :: 0 <= j < |ks| ==> c[j] == Choice(ks[j].select, ks[j].options[Digit(ks, k, j)])
  {
    forall j | 0 <= j < |ks|
      ensures c[j] == Choice(ks[j].select, ks[j].options[Digit(ks, k, j)])
    {
      var config0: Config := [];
      assert c[|config0| + j - 0] == Choice(ks[j].select, ks[j].options[Digit(ks, k, j)]);
    }
  }
}
