/** The self-healing resolver of tests/smart_locator.py: a cache of healed
    selectors consulted first, then one fuzzy pass over the page's form
    controls, and a per-run log of heals. */
module Resolver {
  import opened Text
  import opened Markup

  /** Tags the fuzzy pass looks at (`ALLOWED_TAGS`). */
  const AllowedTags: set<string> := {"input", "textarea", "select"}

  /** Acceptance threshold used when the caller gives none. */
  const DefaultThreshold: int := 60

  /** What `fuzz.partial_ratio` returns: a similarity between 0 and 100. */
  type Score = r: real | 0.0 <= r <= 100.0

  /** The similarity metric, an outside library; nothing is assumed of it
      beyond its range. */
  type Ratio = (string, string) -> Score

  /** `el.get("id") or el.get("name") or el.get_text() or ""`. */
  function CandidateText(e: Element): string {
    if Present(e.id) then e.id.value
    else if Present(e.name) then e.name.value
    else e.text
  }

  /** Score of the `j`-th candidate against the normalised original key. */
  function ScoreAt(ratio: Ratio, key: string, cands: seq<Element>, j: nat): Score
    requires j < |cands|
  {
    ratio(key, Normalize(CandidateText(cands[j])))
  }

  /** The loop's pair `(best_score, best_el)`, with the element given by its
      position among the candidates. */
  datatype Pick = Pick(score: real, index: Option<nat>)

  /** `(best_score, best_el)` after the loop has seen the first `n` candidates. */
  function Scan(ratio: Ratio, key: string, cands: seq<Element>, n: nat): (p: Pick)
    requires n <= |cands|
    ensures p.index.Some? ==> p.index.value < n
  {
    if n == 0 then Pick(0.0, None)
    else
      var p := Scan(ratio, key, cands, n - 1);
      var score := ScoreAt(ratio, key, cands, n - 1);
      if score > p.score then Pick(score, Some(n - 1)) else p
  }

  /** What the loop leaves behind: the score is the largest seen, floored at 0;
      the element is the first one that reached it, and there is none exactly
      when no candidate scored above 0. */
  lemma {:induction false} ScanFirstMaximum(ratio: Ratio, key: string, cands: seq<Element>, n: nat)
    requires n <= |cands|
    ensures var p := Scan(ratio, key, cands, n);
      && p.score >= 0.0
      && (forall j :: 0 <= j < n ==> ScoreAt(ratio, key, cands, j) <= p.score)
      && (p.index.None? ==> p.score == 0.0)
      && (p.index.Some? ==>
            && p.index.value < n
            && p.score > 0.0
            && ScoreAt(ratio, key, cands, p.index.value) == p.score
            && forall j :: 0 <= j < p.index.value ==> ScoreAt(ratio, key, cands, j) < p.score)
  {
    if n > 0 {
      ScanFirstMaximum(ratio, key, cands, n - 1);
    }
  }

  /** The best-candidate loop of `fuzzy_find`. */
  method BestCandidate(ratio: Ratio, key: string, cands: seq<Element>) returns (best: Pick)
    ensures best == Scan(ratio, key, cands, |cands|)
  {
    var bestScore: real, bestIndex: Option<nat> := 0.0, None;
    for i := 0 to |cands|
      invariant Pick(bestScore, bestIndex) == Scan(ratio, key, cands, i)
    {
      var candKey := Normalize(CandidateText(cands[i]));
      var score := ratio(key, candKey);
      if score > bestScore {
        bestScore, bestIndex := score, Some(i);
      }
    }
    best := Pick(bestScore, bestIndex);
  }

  /** The selector written for the winner: `tag#id`, else `tag.firstclass`,
      else the bare tag. */
  function HealedSelector(e: Element): string {
    e.tag + if Present(e.id) then "#" + e.id.value
            else if e.classes != [] then "." + e.classes[0]
            else ""
  }

  function Candidates(dom: seq<Element>): seq<Element> {
    FindAll(dom, AllowedTags)
  }

  /** How `fuzzy_find` ends: the cached selector, a fresh heal with its score,
      or the `ValueError` carrying the original selector and the best score. */
  datatype Resolution =
    | CacheHit(selector: string)
    | Healed(selector: string, score: real)
    | NoMatch(orig: string, best: real)

  /** The slow path of `fuzzy_find`: the loop's winner is accepted when it
      exists and reaches the threshold; a failure carries the best score. */
  function SlowPath(ratio: Ratio, dom: seq<Element>, orig: string, thresh: int): (r: Resolution)
    ensures !r.CacheHit?
    ensures r.NoMatch? ==> r.orig == orig
  {
    var cands := Candidates(dom);
    var p := Scan(ratio, Normalize(orig), cands, |cands|);
    if p.score >= thresh as real && p.index.Some? then
      Healed(HealedSelector(cands[p.index.value]), p.score)
    else
      NoMatch(orig, p.score)
  }

  /** The slow path heals exactly when some candidate scores above 0 and at
      least `thresh`. */
  lemma SlowPathHealsIff(ratio: Ratio, dom: seq<Element>, orig: string, thresh: int)
    ensures var cands, key := Candidates(dom), Normalize(orig);
      SlowPath(ratio, dom, orig, thresh).Healed? <==>
        exists j :: 0 <= j < |cands| && ScoreAt(ratio, key, cands, j) >= thresh as real
                                     && ScoreAt(ratio, key, cands, j) > 0.0
  {
    var cands, key := Candidates(dom), Normalize(orig);
    var p := Scan(ratio, key, cands, |cands|);
    ScanFirstMaximum(ratio, key, cands, |cands|);
    if p.score >= thresh as real && p.index.Some? {
      var i := p.index.value;
      assert ScoreAt(ratio, key, cands, i) >= thresh as real && ScoreAt(ratio, key, cands, i) > 0.0;
    } else if j :| 0 <= j < |cands| && ScoreAt(ratio, key, cands, j) >= thresh as real
                                    && ScoreAt(ratio, key, cands, j) > 0.0 {
      assert false;
    }
  }

  /** A heal is the first candidate with the highest score, its score reaches
      the threshold and is above 0. */
  lemma SlowPathHealsFirstBest(ratio: Ratio, dom: seq<Element>, orig: string, thresh: int)
    ensures var r, cands, key := SlowPath(ratio, dom, orig, thresh), Candidates(dom), Normalize(orig);
      r.Healed? ==>
        && r.score >= thresh as real && r.score > 0.0
        && (forall j :: 0 <= j < |cands| ==> ScoreAt(ratio, key, cands, j) <= r.score)
        && exists i :: 0 <= i < |cands|
             && r.selector == HealedSelector(cands[i])
             && r.score == ScoreAt(ratio, key, cands, i)
             && forall j :: 0 <= j < i ==> ScoreAt(ratio, key, cands, j) < r.score
  {
    var cands, key := Candidates(dom), Normalize(orig);
    var p := Scan(ratio, key, cands, |cands|);
    ScanFirstMaximum(ratio, key, cands, |cands|);
    if p.score >= thresh as real && p.index.Some? {
      var i := p.index.value;
      assert HealedSelector(cands[i]) == SlowPath(ratio, dom, orig, thresh).selector;
    }
  }

  /** A failure reports the best score over the candidates, floored at 0: no
      candidate scored more, and a positive report is some candidate's score. */
  lemma SlowPathFailureReportsBest(ratio: Ratio, dom: seq<Element>, orig: string, thresh: int)
    ensures var r, cands, key := SlowPath(ratio, dom, orig, thresh), Candidates(dom), Normalize(orig);
      r.NoMatch? ==>
        && r.best >= 0.0
        && (forall j :: 0 <= j < |cands| ==> ScoreAt(ratio, key, cands, j) <= r.best)
        && (r.best > 0.0 ==> exists j :: 0 <= j < |cands| && ScoreAt(ratio, key, cands, j) == r.best)
  {
    var cands, key := Candidates(dom), Normalize(orig);
    var p := Scan(ratio, key, cands, |cands|);
    ScanFirstMaximum(ratio, key, cands, |cands|);
    if p.score > 0.0 {
      assert ScoreAt(ratio, key, cands, p.index.value) == p.score;
    }
  }

  /** `fuzzy_find(page, orig, thresh)` as a value: a cache hit returns the
      cached selector without looking at the page. */
  function Resolve(ratio: Ratio, cache: map<string, string>, dom: seq<Element>, orig: string, thresh: int): (r: Resolution)
    ensures r.CacheHit? <==> orig in cache
    ensures r.CacheHit? ==> r.selector == cache[orig]
  {
    if orig in cache then CacheHit(cache[orig]) else SlowPath(ratio, dom, orig, thresh)
  }

  /** Raising the threshold can only turn a heal into a failure. */
  lemma ThresholdMonotone(ratio: Ratio, cache: map<string, string>, dom: seq<Element>, orig: string, low: int, high: int)
    requires low <= high
    ensures !Resolve(ratio, cache, dom, orig, high).NoMatch? ==>
              Resolve(ratio, cache, dom, orig, low) == Resolve(ratio, cache, dom, orig, high)
    ensures Resolve(ratio, cache, dom, orig, low).NoMatch? ==>
              Resolve(ratio, cache, dom, orig, high) == Resolve(ratio, cache, dom, orig, low)
  {
  }

  /** The cache after a resolution: only a fresh heal writes it (`_update_cache`). */
  function CacheAfter(cache: map<string, string>, orig: string, r: Resolution): map<string, string> {
    if r.Healed? then cache[orig := r.selector] else cache
  }

  /** One `HEAL_EVENTS` entry: original selector, healed selector, score. */
  datatype HealEvent = HealEvent(orig: string, healed: string, score: int)

  function Pairs(log: seq<HealEvent>): set<(string, string)> {
    set e | e in log :: (e.orig, e.healed)
  }

  predicate UniquePairs(log: seq<HealEvent>) {
    forall i, j :: 0 <= i < j < |log| ==> (log[i].orig, log[i].healed) != (log[j].orig, log[j].healed)
  }

  /** `_log_once`: the log gains the event only when its pair is new; old
      entries are never touched and pairs stay unique. */
  function LoggedOnce(log: seq<HealEvent>, orig: string, healed: string, score: int): (r: seq<HealEvent>)
    ensures Pairs(r) == Pairs(log) + {(orig, healed)}
    ensures |log| <= |r| <= |log| + 1 && r[..|log|] == log
    ensures r == log <==> (orig, healed) in Pairs(log)
    ensures (orig, healed) !in Pairs(log) ==> r == log + [HealEvent(orig, healed, score)]
    ensures UniquePairs(log) ==> UniquePairs(r)
  {
    if (orig, healed) in Pairs(log) then log else log + [HealEvent(orig, healed, score)]
  }

  /** The log after a resolution: only a fresh heal is logged, with its score
      truncated to an integer. */
  function LogAfter(log: seq<HealEvent>, orig: string, r: Resolution): seq<HealEvent> {
    if r.Healed? then LoggedOnce(log, orig, r.selector, r.score.Floor) else log
  }

  /** After a heal or a hit, resolving the same selector again, on any page and
      with any threshold, is a cache hit on the same selector, and it logs
      nothing. */
  lemma SecondResolveHitsCache(ratio: Ratio, cache: map<string, string>, dom: seq<Element>, later: seq<Element>,
                               orig: string, thresh: int, thresh': int, log: seq<HealEvent>)
    ensures var r := Resolve(ratio, cache, dom, orig, thresh);
      !r.NoMatch? ==>
        var r' := Resolve(ratio, CacheAfter(cache, orig, r), later, orig, thresh');
        r' == CacheHit(r.selector) && LogAfter(log, orig, r') == log
  {
  }

  /** The process-wide state of the resolver: the contents of
      `locator_cache.json` (an absent file reads as the empty map) and
      `HEAL_EVENTS`. */
  class Healer {
    const ratio: Ratio
    var cache: map<string, string>
    var events: seq<HealEvent>

    ghost predicate Valid()
      reads this
    {
      UniquePairs(events)
    }

    constructor (ratio: Ratio, stored: map<string, string>)
      ensures Valid()
      ensures this.ratio == ratio && cache == stored && events == []
    {
      this.ratio := ratio;
      cache := stored;
      events := [];
    }

    /** `fuzzy_find`: the result is `Resolve` of the state before the call, and
        only a fresh heal writes the cache and the log. */
    method FuzzyFind(dom: seq<Element>, orig: string, thresh: int) returns (r: Resolution)
      requires Valid()
      modifies this
      ensures Valid()
      ensures r == Resolve(ratio, old(cache), dom, orig, thresh)
      ensures cache == CacheAfter(old(cache), orig, r)
      ensures events == LogAfter(old(events), orig, r)
    {
      if orig in cache {
        return CacheHit(cache[orig]);
      }
      var key := Normalize(orig);
      var cands := FindAll(dom, AllowedTags);
      var best := BestCandidate(ratio, key, cands);
      if best.score >= thresh as real && best.index.Some? {
        var selector := HealedSelector(cands[best.index.value]);
        UpdateCache(orig, selector);
        LogOnce(orig, selector, best.score.Floor);
        return Healed(selector, best.score);
      }
      return NoMatch(orig, best.score);
    }

    /** `_update_cache`: `orig` now maps to `healed`, every other key is kept. */
    method UpdateCache(orig: string, healed: string)
      modifies this`cache
      ensures cache == old(cache)[orig := healed]
      ensures forall k :: k in old(cache) && k != orig ==> k in cache && cache[k] == old(cache)[k]
    {
      cache := cache[orig := healed];
    }

    /** `_log_once`. */
    method LogOnce(orig: string, healed: string, score: int)
      requires Valid()
      modifies this`events
      ensures Valid()
      ensures events == LoggedOnce(old(events), orig, healed, score)
    {
      var key := (orig, healed);
      if key !in (set e | e in events :: (e.orig, e.healed)) {
        events := events + [HealEvent(orig, healed, score)];
      }
    }
  }

  /** Two calls for the same selector: once the first has healed (or hit), the
      second is a cache hit on the same selector and adds no event. */
  method ResolveTwice(h: Healer, dom: seq<Element>, later: seq<Element>, orig: string) returns (first: Resolution, second: Resolution)
    requires h.Valid()
    modifies h
    ensures h.Valid()
    ensures !first.NoMatch? ==> second == CacheHit(first.selector)
    ensures !first.NoMatch? ==> h.events == LogAfter(old(h.events), orig, first)
  {
    first := h.FuzzyFind(dom, orig, DefaultThreshold);
    second := h.FuzzyFind(later, orig, DefaultThreshold);
  }
}
