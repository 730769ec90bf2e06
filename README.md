# Self-healing locator: a verified model

This project models the self-healing locator layer of a browser test suite
for a finance-tracker web application. A test refers to a form control by a
selector. If the selector no longer works within a short wait, the layer
looks for the control's most likely replacement on the live page,
remembers the mapping in a cache, and logs the heal once per run.

The model has three parts:

- **Resolver** (`smart_locator.dfy`, from `tests/smart_locator.py`).
  `fuzzy_find` first looks up the original selector in the cache. If the
  selector is not there, it makes one fuzzy pass over the page's `input`,
  `textarea` and `select` elements. It keeps the first element whose
  similarity score is highest and above 0, and accepts it when that score
  reaches the threshold (60 by default). When every score is 0 no element is
  kept, and the call fails at any threshold. It then writes `tag#id`, `tag.firstclass` or the
  bare tag as the healed selector, updates the cache and logs the heal.
  Class `Healer` holds the cache and the heal log.
- **Catalog** (`catalog_selectors.dfy`, from `scripts/catalog_selectors.py`).
  This part covers the offline registry builder: the coarse classification
  of a control (`classify`), the registry entries for a page (`parse`), the
  `selector` helper, and the filter that decides which routes `crawl`
  visits.
- **Interception** (`conftest.dfy`, from `tests/conftest.py`). This part
  covers the `_SmartLocator` wrapper: which attributes are wrapped, the guard
  that decides whether a selector may be healed, and `_call_with_heal`'s
  three outcomes. Those outcomes are a direct answer, a heal followed by a
  replay, or the timeout re-raised.

Two shared modules support them. `text.dfy` holds the ASCII versions of
Python's `\w`, `re.sub(r"\W+", "", s)`, `re.match(r"(\w+)", s)`,
`str.lower` and the substring test. `markup.dfy` holds the element records
and the tag filter `find_all`.

Modelling choices:

- The page is the sequence of its elements in document order. An element
  has a tag, an optional `id`, an optional `name`, an optional `type`, a
  class list and a text.
- An empty `id` or `name` counts as absent (`Present`), as Python's
  truthiness does. `type` keeps absent and empty apart, because `classify`
  defaults only an absent `type` to `"text"`.
- `fuzz.partial_ratio` is a parameter `ratio: (string, string) -> Score`,
  where `Score` is a real between 0 and 100. Nothing else is assumed of it.
  The heal log stores `int(best_score)`, the floor of the score, because the
  score is never negative.
- The cache file `locator_cache.json` is the field `Healer.cache`. A missing
  file and an empty mapping behave the same in the code, so both are the
  empty map.
- The browser is the `Page` value: its markup and a function from an action
  call to its outcome (a return value, a timeout or another error).
- BeautifulSoup's `Tag` is always truthy. So `best_score >= thresh and
  best_el` means "the score reaches the threshold and some element was
  chosen".

What the code does, and the model with it:

- The resolver makes a single fuzzy pass. It has no id/name tier, no
  test-id tier and no registry score boost.
- A winner with neither id nor class is accepted, with the bare tag name as
  its selector.
- Only `fill`, `select_option` and `is_visible` are wrapped. `click` is not.

## Model

| member | source | states |
|---|---|---|
| `Text.Normalize` | tests/smart_locator.py:39 | the key keeps only word characters, every word character of the input survives as often as it occurred, and the key is never longer |
| `Text.NormalizeConcat` | tests/smart_locator.py:39 | deleting the non-word runs keeps the order of what is left: the key of `a + b` is the key of `a` followed by the key of `b` |
| `Text.NormalizeChar` | tests/smart_locator.py:39 | one character is kept iff it is a word character; with `NormalizeConcat` this fixes the key of every string |
| `Text.NormalizeFixesWords` | tests/smart_locator.py:44 | a string made only of word characters is its own normalised key |
| `Text.NormalizeIdempotent` | tests/smart_locator.py:39 | normalising an already normalised key changes nothing |
| `Text.LeadingWord` | tests/conftest.py:90 | the run `re.match(r"(\w+)")` captures is a prefix of word characters that cannot be extended |
| `Text.LeadingWordOf` | tests/conftest.py:90 | the leading run of `w + rest` is `w` when `w` is all word characters and `rest` does not continue it |
| `Text.Lower` | tests/conftest.py:91 | no capital letter is left in the result, and every character that is not a capital stays where it was |
| `Text.LowerIdempotent` | scripts/catalog_selectors.py:47 | lowering twice is the same as lowering once |
| `Text.ContainsIff` | tests/conftest.py:88 | the substring test holds iff `t` occurs at some position of `s`, in both directions |
| `Text.ContainsMiddle` | tests/conftest.py:88 | `a + t + b` always contains `t` |
| `Markup.FindAll` | tests/smart_locator.py:42 | `find_all` returns only elements with one of the tags, keeps every such element of the page, and is no longer than the page |
| `Markup.FindAllConcat` | scripts/catalog_selectors.py:78 | `find_all` over a page split in two is the two results concatenated, so document order is kept |
| `Resolver.CandidateText` | tests/smart_locator.py:43 | the text a candidate is scored by; what the choice means is stated by `ScanFirstMaximum` and `SlowPathHealsIff` through `ScoreAt` |
| `Resolver.Scan` | tests/smart_locator.py:41-47 | the element the loop chooses is one of the candidates it has seen |
| `Resolver.ScanFirstMaximum` | tests/smart_locator.py:41-47 | after the loop, the best score is the maximum candidate score floored at 0; the chosen element is the first to reach it, with a positive score; no element is chosen exactly when the best score is 0, that is, when every score is 0 |
| `Resolver.BestCandidate` | tests/smart_locator.py:41-47 | the loop computes `Scan` over all the candidates |
| `Resolver.HealedSelector` | tests/smart_locator.py:50-54 | the selector written for the winner; `HealPassesGuard` and `HealedSelectorPassesGuard` state that it always passes `_should_heal` |
| `Resolver.SlowPath` | tests/smart_locator.py:49-62 | the slow path never produces a cache hit, and its failure carries the original selector |
| `Resolver.SlowPathHealsIff` | tests/smart_locator.py:49 | the slow path heals iff some allowed-tag candidate scores above 0 and at least the threshold, in both directions |
| `Resolver.SlowPathHealsFirstBest` | tests/smart_locator.py:46-54 | a heal's score is at least the threshold, above 0 and not beaten by any candidate; its selector is the healed selector of a candidate with that score that no earlier candidate reached |
| `Resolver.SlowPathFailureReportsBest` | tests/smart_locator.py:60-62 | a failure reports a score that no candidate beats, is at least 0, and is some candidate's score when it is positive |
| `Resolver.Resolve` | tests/smart_locator.py:32-35 | the result is a cache hit iff the original selector is cached, and a hit returns exactly the cached selector |
| `Resolver.ThresholdMonotone` | tests/smart_locator.py:49 | raising the threshold leaves a success unchanged or turns it into a failure; a failure stays a failure |
| `Resolver.CacheAfter` | tests/smart_locator.py:56 | the cache after a call; `Healer.FuzzyFind` states it is written only by a fresh heal, and `SecondResolveHitsCache` that the next call then hits |
| `Resolver.LoggedOnce` | tests/smart_locator.py:71-76 | logging adds exactly the pair to the logged pairs, leaves every old entry in place, adds at most one entry, appends exactly the event `(orig, healed, score)` when the pair is new, leaves the log unchanged iff the pair was already there, and keeps pairs unique |
| `Resolver.LogAfter` | tests/smart_locator.py:57 | the log after a call; `Healer.FuzzyFind` states only a fresh heal is logged, and `SecondResolveHitsCache` that a hit logs nothing |
| `Resolver.SecondResolveHitsCache` | tests/smart_locator.py:32-58 | after a heal or a hit, resolving the same selector again, on any page and with any threshold, is a cache hit on the same selector and logs nothing |
| `Resolver.Healer.constructor` | tests/smart_locator.py:16-23 | the cache starts as the stored mapping and the heal log starts empty |
| `Resolver.Healer.FuzzyFind` | tests/smart_locator.py:26-62 | returns `Resolve` of the cache before the call; only a fresh heal writes the cache (upsert of the original selector) and the log (logged once); a hit or a failure changes neither; heal-log pairs stay unique |
| `Resolver.Healer.UpdateCache` | tests/smart_locator.py:65-68 | the original selector now maps to the new one, overwriting any old value, and every other key keeps its value |
| `Resolver.Healer.LogOnce` | tests/smart_locator.py:71-76 | the log becomes `LoggedOnce` of the old log and pairs stay unique |
| `Resolver.ResolveTwice` | tests/smart_locator.py:32-58 | when the first call heals or hits, the second call for the same selector is a cache hit on the same selector and adds no heal event |
| `Catalog.Classify` | scripts/catalog_selectors.py:44-51 | the coarse class of a control; `ClassifyKeepsTag`, `ClassifyIgnoresCase` and `SubmitButtonIff` state what it means |
| `Catalog.ClassifyKeepsTag` | scripts/catalog_selectors.py:44-51 | for tags without a dot, the classification up to its first dot is the element's tag name |
| `Catalog.ClassifyIgnoresCase` | scripts/catalog_selectors.py:46-50 | the classification does not depend on the case of the `type` attribute |
| `Catalog.SubmitButtonIff` | scripts/catalog_selectors.py:49-50 | for tags without a dot, the class is `button.submit` iff the element is a button whose type lowercases to `submit`, in both directions |
| `Catalog.EntryFor` | scripts/catalog_selectors.py:85-88 | the entry for one element; `EntriesSingle` and `SelectorExtendsEntry` state its shape |
| `Catalog.Entries` | scripts/catalog_selectors.py:76-91 | there are never more entries than scanned elements |
| `Catalog.EntriesConcat` | scripts/catalog_selectors.py:78-91 | the entries of a page split in two are the entries of each part, in order |
| `Catalog.EntriesSingle` | scripts/catalog_selectors.py:82-89 | an element gives its `#id` / `[name="…"]` entry with its classification, or nothing when it has neither id nor name |
| `Catalog.EntriesSkipAnonymous` | scripts/catalog_selectors.py:82-83 | elements with neither id nor name produce no entries |
| `Catalog.Parse` | scripts/catalog_selectors.py:74-91 | the loop produces `Entries` of the elements with a `TAGS` tag, so there are at most as many entries as such elements |
| `Catalog.Selector` | scripts/catalog_selectors.py:94-99 | the `selector` helper; `SelectorExtendsEntry` states it |
| `Catalog.SelectorExtendsEntry` | scripts/catalog_selectors.py:94-99 | `selector` is the tag name followed by the entry `parse` writes, and it is empty exactly for the elements `parse` skips |
| `Catalog.Crawled` | scripts/catalog_selectors.py:61-64 | the route filter; `CrawlOrder` and `RoutesToCrawl` state that exactly the rules it accepts are visited |
| `Catalog.CrawlOrder` | scripts/catalog_selectors.py:59-64 | every visited path comes from a rule that has no `<`, is not `static` and allows GET; every such rule's path is visited; there are never more paths than rules |
| `Catalog.RoutesToCrawl` | scripts/catalog_selectors.py:59-67 | the loop with its `continue` and GET test visits exactly `CrawlOrder` of the URL map |
| `Interception.ShouldHeal` | tests/conftest.py:83-91 | the guard; `IdOrNameIsHealed`, `GuardByLeadingTag` and `NonWordStartIsNotHealed` state when it holds and when it fails |
| `Interception.NonWordStartIsNotHealed` | tests/conftest.py:90-91 | a selector that starts with a non-word character and has no `#` or `name=` is not healed |
| `Interception.GuardByLeadingTag` | tests/conftest.py:90-91 | without `#` or `name=`, the guard holds iff the selector's leading word-character run lowercases to one of input, textarea, select, button |
| `Interception.IdOrNameIsHealed` | tests/conftest.py:88-89 | any selector containing `#` or `name=`, at any position, is healed |
| `Interception.GuardOnIdSelectors` | tests/conftest.py:83-91 | `#amount` and `select#payment_method`, both used by the suite, pass the guard |
| `Interception.HealedSelectorPassesGuard` | tests/smart_locator.py:50-54 | every selector the fuzzy pass can write (`tag#id`, `tag.class`, bare tag) passes `_should_heal` |
| `Interception.HealPassesGuard` | tests/conftest.py:78-80 | whatever the slow path heals to passes the guard again |
| `Interception.GetAttribute` | tests/conftest.py:68-72 | which attributes are wrapped; `SmartLocator.Invoke` states what calling each one does |
| `Interception.FirstCallIgnoresCallerTimeout` | tests/conftest.py:76 | the caller's own `timeout` never reaches the first attempt: giving any value, or none, yields the same first call |
| `Interception.SmartLocator.constructor` | tests/conftest.py:63-66 | the wrapper keeps the raw locator, the page and the original selector; as the patched `page.locator` builds it, the raw locator is on the same page with the same selector |
| `Interception.SmartLocator.Invoke` | tests/conftest.py:68-72 | a name other than `fill`, `select_option` and `is_visible` (such as `click`) is performed once on the raw locator with the caller's arguments unchanged, and the cache and heal log stay as they were; the three wrapped names behave as `CallWithHeal` states |
| `Interception.SmartLocator.CallWithHeal` | tests/conftest.py:74-81 | an outcome of the first attempt other than a timeout is returned unchanged and nothing is healed; a timeout with the guard false is re-raised unchanged; with the guard true the resolver runs at the default threshold, its failure is raised, and otherwise the action is replayed on the healed selector with the caller's original keyword arguments |

## Left out

- Playwright and BeautifulSoup: rendering, `page.content()`, `page.locator`, HTML parsing and real waiting. The page is a given sequence of element records. An action's outcome is a function of the call.
- Interception.SmartLocator.CallWithHeal: the model treats the browser as a fixed function of the call. Page changes between the first attempt and the replay are not modelled.
- Interception.SmartLocator.CallWithHeal: with the session patch active, `page.locator(selector)` returns another `_SmartLocator`. The replay therefore forces the 2000 ms timeout again and can heal again. The session patch (`_patch_page_locator`, `_patch_page_actions`, `pytest_sessionstart`) is left out, so the replay is modelled as one direct call with the caller's keyword arguments.
- `rapidfuzz.fuzz.partial_ratio`: a foreign library, kept as an uninterpreted parameter with range 0 to 100. Floating-point rounding of its result is not modelled; scores are exact reals.
- Reading and writing `locator_cache.json` and `selector_registry.json`: JSON round-tripping is library behaviour. The cache is an in-memory map, loaded when the `Healer` is constructed.
- `crawl`'s browser loop, its import of the Flask URL map, and its file write and print are I/O. Only the choice of routes to visit is modelled (`RoutesToCrawl`).
- Console output from `rich`, in `_log_once` and `pytest_sessionfinish`, and the `creds`/`login` fixtures are I/O.
- scripts/seed_user.py is SQLite I/O. The scenario tests (`tests/test_*.py`) hold no healing logic.
- Unicode: `\w` and `str.lower` are modelled on ASCII only.
- Concurrency: separate processes racing on the cache file are not modelled.
