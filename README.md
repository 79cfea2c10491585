# firm_scrape core, modelled in Dafny

firm_scrape finds the "team" or "people" page of a law firm or an investment bank.
It works only from the site's rendered markup and then extracts one contact record per person.
A job (`FirmJob`) does the following:

1. It loads the firm's homepage and follows the first anchor whose URL path contains a team-page keyword.
2. It collects the `<select>` controls whose options name a key practice or title.
3. It tries every combination of those options (the cross product).
4. For each result page it infers a CSS selector for one profile card from two consecutive name-bearing elements.
5. It skims the cards up to the job's limit, marking each card it took with the class `GARBAGE`, and follows "more" or next-number links.
6. When the team-page strategy raises, the sitemap strategy is tried, and the job records the outcome.

Each contact record (`PersonalProfile`) holds:
- three `;`-joined contact fields filled from the card's anchors;
- a name and a key-person flag guessed from the card's text lines.

The model works on an immutable snapshot of the page (`Dom.Tree`): nodes in document order, each with a tag, class attribute, text, optional href and parent.
The live browser becomes a `Browser.Page` object holding the current snapshot and the effects of the pagination clicks still to come.
Everything else outside the program is a parameter (`Browser.World`):
- page loads and profile tabs;
- `urlparse`/`urljoin`;
- the search form;
- the search box and the sitemap strategy.

The vocabularies and `NAME_LIMIT` live in a module that is not part of this model, so they are passed in as `Constants.Vocabulary`.

The model takes the source's form:
- The contact record and the job are classes whose methods update their fields.
- The page is a class whose `Mark` and `Click` change it in place.
- The loops (the candidate loop, the pagination loop, the configuration loop, the name collection, the climb, the drill-down, the tag path) are methods with loop invariants.
- Each method is proved against a function that specifies it, and the properties the program promises are lemmas about those functions.

The model follows the code as written, including where it does not do what its names suggest:
- The option filter keeps an option found in any of the three vocabularies, whatever the firm's category (`models.py:192-196`).
- The last qualifying name line wins, not the first (`models.py:511-513`).
- A job's `count` is not bounded by its limit. Each candidate is counted before the limit test (`models.py:361-363`), so a pass cut short leaves the count one past the limit. Every later pass that finds a candidate raises it by one more: a later page, or the scrape of a later search configuration, which starts with no profiles (`models.py:308`) and so is not stopped by `models.py:322`. What is kept never exceeds the limit.
- `is_invalid` is never set: the test on `models.py:472` is applied to the method object `self.is_likely_profile_preview` and never calls it. `PersonalProfile.UpdateWithPreviewElement` therefore leaves `isInvalid` as it was. The validity test itself is modelled, by `Profiles.IsLikelyProfilePreview`.
- Selector inference is repeatable only up to the order of the shared classes. That order comes from iterating a Python set (`util.py:179`). Two inferences on the same page select the same elements but need not produce the same string.

## Model

| member | source | states |
|---|---|---|
| Strings.Tokens | firm_scrape/firm_scrape/util.py:128 | every piece `str.split()` returns is a non-empty, whitespace-free token, and there are none exactly when the text is all whitespace |
| Strings.SplitLines | firm_scrape/firm_scrape/models.py:507 | no line `splitlines()` returns contains a line boundary, and there are no lines exactly when the text is empty |
| Strings.NatToString | firm_scrape/firm_scrape/models.py:387 | `str(n)` is the decimal numeral of `n`: non-empty digits without a leading zero whose value is `n` (so different numbers give different texts) |
| Strings.StripDotsCommas | firm_scrape/firm_scrape/util.py:195 | the punctuation strip removes exactly the '.' and ',' characters: every other character stays, the text is no longer, and text without them is unchanged |
| Strings.JoinEmptyIff | firm_scrape/firm_scrape/util.py:182-184 | a join of non-empty parts is empty exactly when there are no parts |
| Strings.SplitJoin | firm_scrape/firm_scrape/models.py:466 | splitting a `c`-joined list of `c`-free parts on `c` gives the parts back |
| Strings.TokensOfJoin | firm_scrape/firm_scrape/util.py:128-133 | splitting a space-joined list of tokens on whitespace gives the tokens back |
| Strings.SplitLinesOfJoin | firm_scrape/firm_scrape/models.py:507 | `splitlines()` of break-free lines joined by "\n" gives the lines back, provided the last is not empty |
| Strings.StripDotsCommasAppend | firm_scrape/firm_scrape/util.py:195 | the strip distributes over concatenation: it works one character at a time, in order |
| Dom.FindAll | firm_scrape/firm_scrape/models.py:351-353 | `find_elements` returns exactly the matching elements, each once, in document order |
| Dom.MarkGarbageEffect | firm_scrape/firm_scrape/models.py:369-371 | the marked element's classes become exactly `["GARBAGE"]`; every other element is unchanged; nothing but classes changes |
| Dom.MarkAllEffect | firm_scrape/firm_scrape/models.py:358-371 | after a pass's markings each marked candidate has only the class GARBAGE, all other elements are unchanged, and only classes changed |
| Dom.SameShapeViews | firm_scrape/firm_scrape/models.py:354-368 | what a pass reads from a card (anchor hrefs, child texts, anchor count) and the page's anchor list are unaffected by earlier markings |
| Dom.MarkHidesFromClassSelectors | firm_scrape/firm_scrape/models.py:369-371 | a marked card is no longer selected by a class selector (unless the selector asks only for GARBAGE), while a tag-path selector still selects it |
| Util.ReturnTokenIntersection | firm_scrape/firm_scrape/util.py:172-179 | the result holds exactly the tokens found in both lists, each once |
| Util.CssClassTokensToSelector | firm_scrape/firm_scrape/util.py:182-184 | the selector starts with '.'; for whitespace-split tokens it is "." exactly when there are no tokens (the test at `util.py:133`); dropping the '.' and splitting on '.' gives '.'-free tokens back |
| Util.IsName | firm_scrape/firm_scrape/util.py:213-218 | `is_name` holds exactly when at least two lower-cased tokens (repeats counted) are in the name set |
| Util.TwoNamePositions | firm_scrape/firm_scrape/util.py:213-218 | a count of at least two is the same as two distinct token positions holding names, in both directions |
| Util.OneNamePosition | firm_scrape/firm_scrape/util.py:213-218 | a count of at least one is the same as some token being a name |
| Util.GetNameElements | firm_scrape/firm_scrape/util.py:187-210 | the collection loop returns the name elements as the collection function defines them |
| Util.CollectShape | firm_scrape/firm_scrape/util.py:193-207 | each loop step keeps the collected list in document order, all names, texts pairwise distinct, within NAME_LIMIT+1 |
| Util.CollectComplete | firm_scrape/firm_scrape/util.py:193-207 | unless the cap was reached, every qualifying candidate's text is among the collected texts |
| Util.CollectFirst | firm_scrape/firm_scrape/util.py:193-207 | each step of the scan keeps the collected elements the first with their text, and every qualifying element passed over has its text among them |
| Util.NameElementsFirst | firm_scrape/firm_scrape/util.py:187-210 | each returned element is the first qualifying element with its text, and every qualifying element before the last returned one has its text among them: the result is the first distinct name texts in document order, the first `NAME_LIMIT + 1` when the cap is hit |
| Util.NameElementsProperties | firm_scrape/firm_scrape/util.py:187-210 | name elements are in document order, each has its own text passing the name pattern and `is_name`, texts are pairwise distinct, at most NAME_LIMIT+1, and without the cap every qualifying element's text is present |
| Util.ClimbToSiblings | firm_scrape/firm_scrape/util.py:104-119 | the lock-step while loop with its `try` ends where the climb function says, converged or not |
| Util.ClimbUp | firm_scrape/firm_scrape/util.py:108-116 | both names move up by the same number of steps |
| Util.ClimbConverges | firm_scrape/firm_scrape/util.py:108-119 | the climb converges exactly when the two names are at equal depth, then at two children of one parent; otherwise it reached the root |
| Util.ClimbFirstMeet | firm_scrape/firm_scrape/util.py:108-116 | a converging climb stops at the first level where the parents coincide |
| Util.ClimbMeaning | firm_scrape/firm_scrape/util.py:98-119 | the three climb facts together: equal steps, convergence iff equal depth, first meeting level, root otherwise |
| Util.PickPair | firm_scrape/firm_scrape/util.py:98-125 | the chosen climb stays in the tree; `NotEnoughNames` only before any pair with fewer than two names left; `NoParent` only when a remaining name is the document element; two or more remaining names none of which is the document element always give a climb |
| Util.PickPairFrom | firm_scrape/firm_scrape/util.py:98-125 | from pair `i` on: exactly fewer than two names fail with NotEnoughNames; NoParent only with a name that is the document element, success whenever there is none; a success is the climb of pair `j`, every earlier pair had names at unequal depths, and it is either convergent or the last pair |
| Util.PickPairMeaning | firm_scrape/firm_scrape/util.py:98-125 | exactly the lists of fewer than two names raise NotEnoughNames; NoParent only when some name is the document element, so two or more other names always succeed; the climb used is the first pair at equal depths, converged; with none, the last pair's, stopped at the root |
| Util.DrillDown | firm_scrape/firm_scrape/util.py:133-150 | the drill-down loop ends as the drill function says |
| Util.DrillMeaning | firm_scrape/firm_scrape/util.py:133-150 | the drill-down walks the only-child chain below `name_1`: it gives the full classes of the chain's last node exactly when every node of the chain has `name_1`'s anchor count, and keeps the shared classes exactly when some only child on it has a different count; a full-class node lies at or below `name_1`, with the same anchor count and a child count other than one |
| Util.OnlyChildChain | firm_scrape/firm_scrape/util.py:136-148 | the chain starts at the node, each node on it is the only child of the one before, and it ends at the first node whose child count is not one |
| Util.DrillChain | firm_scrape/firm_scrape/util.py:133-150 | full classes of the chain's last node exactly when anchor counts agree along the chain; the shared classes exactly when they do not |
| Util.DrillBelow | firm_scrape/firm_scrape/util.py:133-148 | a full-class node lies at or below the start, with its anchor count and a child count other than one |
| Util.TagPathToRoot | firm_scrape/firm_scrape/util.py:152-162 | the upward loop yields the tag path from the document element |
| Util.PathTagsMeaning | firm_scrape/firm_scrape/util.py:152-169 | the tag path has one tag per level from the root to `name_1`, in order, and the resulting " > " selector matches `name_1` |
| Util.SelectorFromClimb | firm_scrape/firm_scrape/util.py:127-169 | the selector built after the climb is one `get_profile_selector` may return for that climb |
| Util.SelectorForWellFormed | firm_scrape/firm_scrape/util.py:131-150 | a returned selector is one the browser accepts exactly when the climbed pair is usable (a classless drill-down target gives ".") |
| Util.GetProfileSelector | firm_scrape/firm_scrape/util.py:88-169 | a failed pair choice raises the same error; otherwise the result is a selector for the chosen climb |
| Util.SelectorForIsRepeatable | firm_scrape/firm_scrape/util.py:127-150 | two inferences on the same page may order the shared classes differently but select exactly the same elements |
| Util.SelectorMatchesItsSource | firm_scrape/firm_scrape/util.py:127-169 | a well-formed inferred selector matches `name_1` or a node below it |
| Profiles.AppendAllIsJoin | firm_scrape/firm_scrape/models.py:428-447 | repeated `add_*` of non-empty values gives the ';'-join of the old field's parts and the values |
| Profiles.FieldRoundTrip | firm_scrape/firm_scrape/models.py:428-447 | from an empty field, splitting on ';' returns the appended non-empty, ';'-free values in order |
| Profiles.AppendAllCons | firm_scrape/firm_scrape/models.py:428-447 | appending one value and then more is appending them all in that order |
| Profiles.AppendAllHead | firm_scrape/firm_scrape/models.py:428-447 | later appends keep a non-empty field as the prefix, followed by nothing or by ';' |
| Profiles.FirstPart | firm_scrape/firm_scrape/models.py:428-466 | from an empty field, the first ';'-part is the first appended value when that value is non-empty and ';'-free, whatever is appended after it |
| Profiles.AppendAllEmptyIff | firm_scrape/firm_scrape/models.py:428-450 | a field is non-empty exactly when it was, or a non-empty value was appended (what `contains_email` relies on) |
| Profiles.OfKind | firm_scrape/firm_scrape/models.py:474-484 | every href sent to a field has that field's kind and comes from a present anchor href |
| Profiles.ClassifyPartitions | firm_scrape/firm_scrape/models.py:474-484 | the three fields together hold every present href exactly once; absent hrefs are skipped |
| Profiles.OfKindAppend | firm_scrape/firm_scrape/models.py:474-484 | classification keeps anchor order: earlier anchors' hrefs come first in each field |
| Profiles.KindMembership | firm_scrape/firm_scrape/models.py:477-484 | a present href is in the field of its kind and in no other |
| Profiles.LinkedInPrecedence | firm_scrape/firm_scrape/models.py:478-482 | an href containing "linkedin" or "linked.in" goes to linkedins, never to emails or others, even with "mailto" |
| Profiles.FullHrefIsFirstOther | firm_scrape/firm_scrape/models.py:465-466 | for a fresh profile the full-profile URL is the first "other" href joined to the location, when that href is non-empty and ';'-free (later ones may be anything) |
| Profiles.FirstOtherAll | firm_scrape/firm_scrape/models.py:465-484 | for any profile whose "other" field was filled from an anchor list on a fresh profile: no other link gives the location joined with "", otherwise the first other link joined to the location |
| Profiles.EmailsRecorded | firm_scrape/firm_scrape/models.py:449-450 | an e-mail field filled from an anchor list on a fresh profile is non-empty exactly when a non-empty e-mail link was classified |
| Profiles.TextNodesKeepContacts | firm_scrape/firm_scrape/models.py:499-519 | the text scan changes only the name and the key flag: location, category and the three contact fields stay |
| Profiles.WithAnchorsSnoc | firm_scrape/firm_scrape/models.py:474-484 | one more anchor leaves the record as it was when its href is missing, and otherwise appends the href to the one field of its kind |
| Profiles.PreviewTest | firm_scrape/firm_scrape/models.py:452-455 | more than ten anchors is never a likely preview; a likely preview has at most ten anchors and not a single empty child text; ten or fewer anchors with child texts other than the single empty one (in particular, not exactly one child) is one |
| Profiles.LineNameScore | firm_scrape/firm_scrape/models.py:509-513 | the score counts the lower-cased tokens in the name set when there are at most five, else zero |
| Profiles.NameLineNeedsFewTokens | firm_scrape/firm_scrape/models.py:509-514 | a name line has between one and five tokens and at least one name among them |
| Profiles.LastNameWins | firm_scrape/firm_scrape/models.py:505-516 | after the scan the name is the last qualifying line, or unchanged when none qualifies |
| Profiles.KeyAfterMeaning | firm_scrape/firm_scrape/models.py:505-519 | the key flag becomes true exactly when some lower-cased line is in the key list, and is otherwise unchanged (never cleared) |
| Profiles.PersonalProfile.constructor | firm_scrape/firm_scrape/models.py:419-426 | a new profile has its location and category, no name or key flag, and empty contact fields |
| Profiles.PersonalProfile.AddEmail | firm_scrape/firm_scrape/models.py:428-433 | `emails` gets the value (or ';' and the value) appended; no other field changes |
| Profiles.PersonalProfile.AddLinkedIn | firm_scrape/firm_scrape/models.py:435-440 | `linkedins` gets the value appended; no other field changes |
| Profiles.PersonalProfile.AddOtherAnchor | firm_scrape/firm_scrape/models.py:442-447 | `others` gets the value appended; no other field changes |
| Profiles.PersonalProfile.ContainsEmail | firm_scrape/firm_scrape/models.py:449-450 | when the e-mail field was filled by classifying anchors into a fresh profile, true exactly when some anchor was a non-empty e-mail link; the text scan that follows does not touch that field |
| Profiles.PersonalProfile.GetFullElementHref | firm_scrape/firm_scrape/models.py:465-466 | when the "other" field was filled by classifying anchors into a fresh profile, the first non-e-mail, non-LinkedIn href resolved against the location (the location joined with "" when there is none), given that this first href is non-empty and ';'-free; the text scan that follows does not touch that field |
| Profiles.PersonalProfile.AddAnchors | firm_scrape/firm_scrape/models.py:474-484 | the anchor loop leaves the record as the classification says: each field extended by its hrefs in order |
| Profiles.PersonalProfile.UpdateWithPreviewElement | firm_scrape/firm_scrape/models.py:468-484 | the card's anchors are classified into the fields, and `isInvalid` is left unchanged |
| Profiles.PersonalProfile.UpdateWithFullElement | firm_scrape/firm_scrape/models.py:486-497 | the full page's anchors are classified into the fields |
| Profiles.PersonalProfile.UpdateWithTextNodes | firm_scrape/firm_scrape/models.py:499-519 | name and key flag become the last-name-line and key-line results over all lines of all texts; the key list follows the category |
| Profiles.PersonalProfile.ScanText | firm_scrape/firm_scrape/models.py:506-519 | the line loop over one text gives the scan results for its lines |
| Profiles.PersonalProfile.ScanLine | firm_scrape/firm_scrape/models.py:507-519 | a line becomes the name exactly when it is a name line; a lower-cased key line sets the flag |
| Browser.Apply | firm_scrape/firm_scrape/models.py:380-393 | a click's effect leaves a well-formed page; a "more"-style load keeps the URL and the existing elements |
| Browser.Page.Load | firm_scrape/firm_scrape/models.py:175 | after `driver.get` the page is the one loaded |
| Browser.Page.Mark | firm_scrape/firm_scrape/models.py:369-371 | the element's class becomes GARBAGE; URL and later clicks are unchanged |
| Browser.Page.Click | firm_scrape/firm_scrape/models.py:380-393 | the click moves exactly when a step is left, to that step's page; otherwise nothing changes |
| SearchConfigs.KeptOptionsMeaning | firm_scrape/firm_scrape/models.py:186-198 | an option text is kept exactly when some option has it and its lower case is in one of the three vocabularies |
| SearchConfigs.RetainedOptions | firm_scrape/firm_scrape/models.py:199-200 | each retained select is one of the selects, with its non-empty kept list |
| SearchConfigs.RetainedHas | firm_scrape/firm_scrape/models.py:199-200 | a select is retained exactly when its kept list is non-empty |
| SearchConfigs.KeySelectsMeaning | firm_scrape/firm_scrape/models.py:182-200 | each key select carries its non-empty kept options, and a select is a key select exactly when it has some |
| SearchConfigs.KeySelects | firm_scrape/firm_scrape/models.py:182-200 | the select loop builds the key selects in document order |
| SearchConfigs.AddConfigs | firm_scrape/firm_scrape/models.py:206-217 | the recursion appends to `configs` every completion of `config`, in order |
| SearchConfigs.ConfigCount | firm_scrape/firm_scrape/models.py:206-220 | the number of configurations is the product of the per-select option counts |
| SearchConfigs.ConfigsAreCompletions | firm_scrape/firm_scrape/models.py:208-215 | the configurations from select `idx` on are exactly the completions of `config` by one option per select |
| SearchConfigs.CompletesStep | firm_scrape/firm_scrape/models.py:211-215 | completing from `idx` is choosing one option of select `idx`, then completing from `idx + 1` |
| SearchConfigs.CrossProduct | firm_scrape/firm_scrape/models.py:206-220 | a configuration picks exactly one key option for each key select, in select order, and there are as many as the product of the option counts |
| SearchConfigs.ConfigsAt | firm_scrape/firm_scrape/models.py:208-215 | configuration `k` from select `idx` on extends `config` and, for each later select, takes the option numbered by that select's digit of `k` |
| SearchConfigs.ConfigOrder | firm_scrape/firm_scrape/models.py:206-217 | the configurations come in lexicographic (odometer) order: configuration `k` takes, for select `j`, option number digit `j` of `k` in the mixed radix of the option counts, the last select turning fastest |
| SearchConfigs.NoSearchIffNoKeySelects | firm_scrape/firm_scrape/models.py:224 | the configurations are exactly `[[]]` precisely when no select was retained |
| SearchConfigs.SearchConfigsOf | firm_scrape/firm_scrape/models.py:182-224 | the configurations of a page are the cross product over its key selects, and are `[[]]` exactly when the page has no key select |
| Jobs.FirstTeamAnchorWins | firm_scrape/firm_scrape/models.py:148-169 | the first team link in document order wins; no anchor before it qualifies; none found only when no anchor qualifies |
| Jobs.LocateTeamPage | firm_scrape/firm_scrape/models.py:148-165 | the anchor and keyword loops return the joined URL of the first team link, or nothing |
| Jobs.PreviewRecordsAt | firm_scrape/firm_scrape/models.py:357-367 | profile `k` of a pass is the one made from candidate `k` |
| Jobs.SkimMeaning | firm_scrape/firm_scrape/models.py:349-372 | the count rises by one per candidate looked at; kept profiles are within the limit; a pass cut short leaves the count above the limit and the stopping candidate unmarked; every kept candidate is marked |
| Jobs.SkimKeepsLimit | firm_scrape/firm_scrape/models.py:357-364 | a pass keeps the limit invariant: kept profiles never exceed the count or the limit |
| Jobs.CompleteOnlyAdds | firm_scrape/firm_scrape/models.py:315-318 | completion keeps location, category, name and key flag, leaves a profile with an e-mail alone, and only appends anchors |
| Jobs.PreviewContacts | firm_scrape/firm_scrape/models.py:314-318 | for a profile made from a card (anchors, then text lines), `contains_email` holds exactly when the card has a non-empty e-mail link, and the full profile URL is the card's first other link resolved against the location when that link is non-empty and ';'-free |
| Jobs.CompleteProfiles | firm_scrape/firm_scrape/models.py:314-318 | the loop over a pass's profiles yields their completed records, in order |
| Jobs.LinkAmongMeaning | firm_scrape/firm_scrape/models.py:374-397 | the link taken is the first anchor whose lower-cased text is "more" or the next number; it is numbered exactly when not "more"; with none there is no link |
| Jobs.PassOnceKeepsLimit | firm_scrape/firm_scrape/models.py:310-325 | one pass keeps the limit invariant; the count never falls and collected profiles only grow |
| Jobs.PassesKeepLimit | firm_scrape/firm_scrape/models.py:310-325 | the limit invariant holds across every pass of the loop |
| Jobs.ScrapeError | firm_scrape/firm_scrape/util.py:124-150 | a scrape raises only for too few names, a parent of the document element, or a selector the browser refuses |
| Jobs.FailuresAll | firm_scrape/firm_scrape/models.py:248-252 | the failure count equals the number of configurations exactly when every configuration failed |
| Jobs.FailuresSnoc | firm_scrape/firm_scrape/models.py:245-249 | each further outcome adds one failure exactly when its scrape raised |
| Jobs.ConfigsRunSnoc | firm_scrape/firm_scrape/models.py:226-249 | one more configuration, searched from the page the previous one left and scraped, extends the chain of configurations run |
| Jobs.FirmJob.constructor | firm_scrape/firm_scrape/models.py:63-70 | a new job has count 0, is neither completed nor failed, has fail reason "N/A", and keeps the limit invariant |
| Jobs.FirmJob.PreviewProfile | firm_scrape/firm_scrape/models.py:357-366 | a fresh profile for the card; the count rises by one; "over" exactly when the count passed the limit; otherwise the profile has the card's anchors and text lines |
| Jobs.FirmJob.TakeCandidate | firm_scrape/firm_scrape/models.py:357-371 | candidate `i` is counted; over the limit the page is untouched, otherwise the profile is the candidate's record and the candidate is marked |
| Jobs.FirmJob.SkimOne | firm_scrape/firm_scrape/models.py:357-371 | one turn of the candidate loop keeps the kept records equal to the first `i + 1` candidates' records, or stops unchanged over the limit |
| Jobs.FirmJob.SkimCandidates | firm_scrape/firm_scrape/models.py:357-372 | the candidate loop keeps as many as the limit allows, in order, counts each one looked at, and marks exactly the kept ones |
| Jobs.FirmJob.SkimTeamPage | firm_scrape/firm_scrape/models.py:349-372 | a refused selector raises with nothing changed; otherwise the profiles, count and page are those of one pass |
| Jobs.FirmJob.GetNextIfExists | firm_scrape/firm_scrape/models.py:374-397 | with a link, `exhausted` becomes false, it is clicked, and the page index rises only for a number; without one nothing changes |
| Jobs.FirmJob.ScrapePass | firm_scrape/firm_scrape/models.py:311-325 | one loop body leaves page, count, index and profiles as one pass says |
| Jobs.FirmJob.RunPasses | firm_scrape/firm_scrape/models.py:305-325 | the loop ends where the passes end, from page index 1 and no profiles |
| Jobs.FirmJob.ScrapeTeamPage | firm_scrape/firm_scrape/models.py:301-336 | raises exactly on an inference error, changing nothing; otherwise uses a selector for the chosen climb, runs the passes and saves their profiles; the limit invariant holds |
| Jobs.FirmJob.TryConfig | firm_scrape/firm_scrape/models.py:229-249 | no search button raises ClickOnNothing with nothing changed; otherwise the search lands on its page, whose scrape goes through exactly when it has no inference error, and page, count and saved profiles are where that scrape leaves them |
| Jobs.FirmJob.NextConfig | firm_scrape/firm_scrape/models.py:226-249 | configuration `k` runs from the page and count configuration `k - 1` left; the chain of configurations run grows by it and the saved profiles by its scrape's |
| Jobs.FirmJob.RunConfigs | firm_scrape/firm_scrape/models.py:224-252 | every configuration run searched from where the previous one left the page, and its outcome is its result page's scrape; the loop stops with ClickOnNothing exactly when a configuration has no search button; it raises NoEffectiveFilter exactly when all ran and every scrape raised; page and count are where the last scrape left them and the saved profiles are those of all the scrapes, in order |
| Jobs.FirmJob.ProcessTeamPage | firm_scrape/firm_scrape/models.py:171-285 | with key selects the configuration loop runs over their cross product from the team page; without them a LAW firm fails with NoEffectiveSearch exactly when the search-box failure count equals the number of key practices (so a page without a search box, where nothing is submitted, fails only when there are no key practices), and another firm's team page is scraped as it is, with the scrape's error and final state |
| Jobs.FirmJob.ExecuteTeamPageStrategy | firm_scrape/firm_scrape/models.py:138-169 | no team link raises TeamPageNotFound with nothing changed; otherwise the team URL is recorded and the result and final state are those of processing the loaded team page |
| Jobs.FirmJob.Execute | firm_scrape/firm_scrape/models.py:75-92 | the team-page result and final state are those of the team-page strategy (no team link raises TeamPageNotFound with nothing changed, otherwise processing the loaded team page); the job is always completed; it fails, with the team strategy's message, exactly when both strategies raised; otherwise failed and fail reason keep their values |

## Left out

- Jobs.FirmJob.TryConfig, Jobs.FirmJob.RunConfigs, Jobs.FirmJob.ScrapeTeamPage: `World.load` and `World.fetch` never fail, so the 20-second page-load timeout (`util.py:86`) is not modelled. In the source a timed-out `driver.get` while visiting a full profile (`models.py:317-318, 341`) makes that scrape raise, so its configuration counts as failed and its profiles are not saved (`models.py:243-247`). The "exactly when" statements of these members hold for a world whose loads succeed.
- Browser I/O is not modelled beyond its effects: the WebDriver session (`setup_webdriver`), sleeps, printing and logging, and the new-tab handling of `visit_full_profile_href`. A page is a snapshot; a profile page comes from `World.fetch`.
- Persistence through SQLAlchemy (column declarations, `db_session.add/commit/rollback`) is modelled as the job's `saved` sequence.
- The sitemap strategy (`models.py:94-136`) is reduced to its outcome, `World.sitemapOk`. It depends on an external sitemap library.
- `urlparse(...).path` and `urljoin` are parameters (`World.pathOf`, `World.urlJoin`).
- Submitting the search form with a configuration (`select_by_visible_text` and the button click) is a parameter, `World.search`. A page without a search button gives `None` and raises `ClickOnNothing`. Select elements going stale between searches is not modelled.
- Jobs.FirmJob.ProcessTeamPage: for the search-box branch (`models.py:253-283`) only the failure count is modelled (`World.searchBoxFailures`). It depends on typing into a live input box, and the profiles those scrapes would add to `count` and `saved` are not modelled.
- Jobs.FirmJob.ProcessTeamPage: three exits of the search-box branch are not modelled. When no box is found again after a successful scrape (`models.py:276`), the next `send_keys` on `None` raises an uncaught AttributeError (`models.py:267`). After a failed scrape the box found before is stale, and the next `send_keys` raises an uncaught browser error. With no search box at all nothing is submitted or scraped and nothing is raised; the model covers this case only as a failure count of zero.
- Constants.TeamPageKeywords: the in-place `+=` on the module-level `TEAM_PAGE_KEYWORDS` list (`models.py:157-159`, and per sitemap page at `models.py:111`) extends that list for good, so in one process every later job, of either category, also matches the law keywords, once per earlier extension. The model assumes no earlier LAW job ran in the same process: a job's keywords are the shared list, plus the law list for a LAW firm.
- Jobs.PassOnce: a next link whose click has no effect left to perform ends the loop. The source clicks it and loops again on the same page, and its scrape loop (`models.py:311-325`) ends only when that scrape's profile list has exactly the limit's length (`models.py:322`); so with a "more" anchor that stays after the content runs out it never ends whenever the list never reaches that length exactly, which is always the case with an unbounded limit, with a class selector on a page holding fewer cards than the limit, and when the job's count is already past the limit so that every pass keeps nothing (`models.py:362-364`). On those later rounds a class selector finds no card, because every taken card's class is now just `GARBAGE` (`models.py:369-371`, `Dom.MarkHidesFromClassSelectors`), so nothing more is added; a tag-path selector (`util.py:152-169`) still finds the marked cards, so each round counts them again and, within the limit, adds them again.
- `start_time`, `end_time`, `job_id` and `__repr__` are not modelled; they carry no behaviour.
- Profiles.NameScore: the threshold `namescore > 0.20 * len(tokens)` is the integer form `5 * score > n`. This is equal for all integer scores.
- Strings.Lower: only ASCII letters are lower-cased.
- Errors.Message: the messages for the three browser errors stand for WebDriver's exception texts, which are not modelled.
- Util.ReturnTokenIntersection: the order of the shared classes comes from iterating a Python set and is modelled as an arbitrary choice. Only the elements are fixed.
- CSS escaping of class names and the browser's refusal of selectors other than "." are not modelled.
- The `crossdomain` decorator and `setup_webdriver` (`util.py:12-87`), `find_search_button` and `find_search_box` (`models.py:287-299`), and the Flask application in `firm_scrape/firm_scrape/__init__.py` are not part of this model.
- The vocabularies and NAME_LIMIT are not part of this model. They are passed in.
- The unbounded limit (`float('inf')`) is `Jobs.Limit.Unbounded`. Other floating-point behaviour is not modelled.
- Jobs.FirmJob.Execute and the methods it calls require the limit invariant (`Inv`) on entry. It holds from the constructor on, and every method preserves it.
