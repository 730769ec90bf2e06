/** The action wrapper of tests/conftest.py: a locator whose fill,
    select_option and is_visible calls are first tried with a short timeout,
    and on a timeout healed through the resolver and replayed. */
module Interception {
  import opened Text
  import opened Markup
  import opened Resolver

  /** Leading tag names that make a selector worth healing (`HEAL_TAGS`). */
  const HealTags: set<string> := {"input", "textarea", "select", "button"}

  /** The locator attributes that go through healing. */
  const HealedActions: set<string> := {"fill", "select_option", "is_visible"}

  /** Timeout, in milliseconds, forced on the first attempt. */
  const FirstAttemptTimeout: int := 2000

  /** `_should_heal`: the selector names an id (`#`) or a name attribute
      (`name=`), or it starts with a run of word characters that lowercases to
      one of `HealTags`. */
  predicate ShouldHeal(orig: string) {
    if Contains(orig, "#") || Contains(orig, "name=") then true
    else
      var m := LeadingWord(orig);
      m != "" && Lower(m) in HealTags
  }

  /** A selector that starts with a non-word character and names no id or
      name attribute (a class selector, an attribute selector) is not healed. */
  lemma NonWordStartIsNotHealed(orig: string)
    requires orig != [] && !IsWordChar(orig[0])
    requires !Contains(orig, "#") && !Contains(orig, "name=")
    ensures !ShouldHeal(orig)
  {
  }

  /** Selectors the test suite fills by id are healed. */
  lemma GuardOnIdSelectors()
    ensures ShouldHeal("#amount") && ShouldHeal("select#payment_method")
  {
    assert "#amount" == [] + "#" + "amount";
    IdOrNameIsHealed([], "#", "amount");
    assert "select#payment_method" == "select" + "#" + "payment_method";
    IdOrNameIsHealed("select", "#", "payment_method");
  }

  /** Without `#` or `name=`, the guard holds iff the selector starts with a
      word-character run that lowercases to one of `HealTags`. */
  lemma GuardByLeadingTag(w: string, rest: string)
    requires w != "" && AllWord(w)
    requires rest == [] || !IsWordChar(rest[0])
    requires !Contains(w + rest, "#") && !Contains(w + rest, "name=")
    ensures ShouldHeal(w + rest) <==> Lower(w) in HealTags
  {
    LeadingWordOf(w, rest);
  }

  /** Any selector holding `#` or `name=` is healed, wherever it occurs. */
  lemma IdOrNameIsHealed(a: string, t: string, b: string)
    requires t == "#" || t == "name="
    ensures ShouldHeal(a + t + b)
  {
    ContainsMiddle(a, t, b);
  }

  /** Every selector the fuzzy pass can write passes the guard, so a healed
      locator is itself healable. */
  lemma HealedSelectorPassesGuard(e: Element)
    requires e.tag in AllowedTags
    ensures ShouldHeal(HealedSelector(e))
  {
    var s := HealedSelector(e);
    var suffix := if Present(e.id) then "#" + e.id.value
                  else if e.classes != [] then "." + e.classes[0]
                  else "";
    assert s == e.tag + suffix;
    assert AllWord(e.tag);
    LeadingWordOf(e.tag, suffix);
    LowerFixesLowercase(e.tag);
  }

  /** Whatever `fuzzy_find` heals to passes the guard. */
  lemma HealPassesGuard(ratio: Ratio, dom: seq<Element>, orig: string, thresh: int)
    ensures var r := SlowPath(ratio, dom, orig, thresh);
      r.Healed? ==> ShouldHeal(r.selector)
  {
    var r := SlowPath(ratio, dom, orig, thresh);
    SlowPathHealsFirstBest(ratio, dom, orig, thresh);
    if r.Healed? {
      var cands := Candidates(dom);
      var i :| 0 <= i < |cands| && r.selector == HealedSelector(cands[i]);
      HealedSelectorPassesGuard(cands[i]);
    }
  }

  /** What `__getattr__` hands back: the wrapped action, or the raw locator's
      attribute unchanged. */
  datatype Attribute = Healing(action: string) | Plain(action: string)

  /** `__getattr__`: exactly fill, select_option and is_visible are wrapped;
      click and everything else are the raw locator's own. */
  function GetAttribute(name: string): (a: Attribute)
    ensures a.action == name
    ensures a.Healing? <==> name in HealedActions
  {
    if name in HealedActions then Healing(name) else Plain(name)
  }

  /** Argument and return values of driver actions. */
  datatype Value = Unit | Bool(b: bool) | Int(i: int) | Str(s: string)

  /** What an action call can raise: Playwright's timeout, the resolver's
      `ValueError`, or anything else. */
  datatype Failure = Timeout(message: string) | NoMatchError(orig: string, best: real) | Other(message: string)

  datatype Outcome = Returned(value: Value) | Raised(error: Failure)

  /** One call of a locator action: selector, action name, positional and
      keyword arguments. */
  datatype Call = Call(selector: string, action: string, args: seq<Value>, kwargs: map<string, Value>)

  /** The live page: its current markup, and what the browser does with an
      action call. */
  datatype Page = Page(dom: seq<Element>, perform: Call -> Outcome)

  /** A raw Playwright locator: a page and a selector. */
  datatype Locator = Locator(page: Page, selector: string)

  /** The first attempt: the caller's keyword arguments with `timeout` set to
      2000, whatever the caller gave. */
  function FirstCall(raw: Locator, action: string, args: seq<Value>, kw: map<string, Value>): (c: Call)
    ensures c.selector == raw.selector && c.action == action && c.args == args
    ensures c.kwargs.Keys == kw.Keys + {"timeout"}
    ensures c.kwargs["timeout"] == Int(FirstAttemptTimeout)
    ensures forall k :: k in kw && k != "timeout" ==> c.kwargs[k] == kw[k]
  {
    Call(raw.selector, action, args, kw["timeout" := Int(FirstAttemptTimeout)])
  }

  /** The caller's own `timeout` never reaches the first attempt: whatever
      value it gave, or none, the first call is the same. */
  lemma FirstCallIgnoresCallerTimeout(raw: Locator, action: string, args: seq<Value>, kw: map<string, Value>, v: Value)
    ensures FirstCall(raw, action, args, kw) == FirstCall(raw, action, args, kw["timeout" := v])
    ensures FirstCall(raw, action, args, kw) == FirstCall(raw, action, args, kw - {"timeout"})
  {
    assert kw["timeout" := v]["timeout" := Int(FirstAttemptTimeout)] == kw["timeout" := Int(FirstAttemptTimeout)];
    assert (kw - {"timeout"})["timeout" := Int(FirstAttemptTimeout)] == kw["timeout" := Int(FirstAttemptTimeout)];
  }

  /** Two handles on one page: the same markup and the same outcome for every
      call. */
  ghost predicate SamePage(p: Page, q: Page) {
    p.dom == q.dom && forall c :: p.perform(c) == q.perform(c)
  }

  predicate IsTimeout(o: Outcome) {
    o.Raised? && o.error.Timeout?
  }

  /** `_SmartLocator`: a raw locator, its page and the selector it was made from. */
  class SmartLocator {
    const raw: Locator
    const page: Page
    const orig: string

    /** The raw locator is the one `page.locator(orig)` made: same markup,
        same browser behaviour, same selector. */
    ghost predicate Valid() {
      SamePage(raw.page, page) && raw.selector == orig
    }

    constructor (raw: Locator, page: Page, orig: string)
      requires SamePage(raw.page, page) && raw.selector == orig
      ensures Valid()
      ensures this.raw == raw && this.page == page && this.orig == orig
    {
      this.raw := raw;
      this.page := page;
      this.orig := orig;
    }

    /** `_call_with_heal`: anything but a timeout on the first attempt is the
        answer; a timeout is re-raised as it is unless the guard holds; then
        the resolver runs, and its failure is raised or the action is replayed
        on the healed selector with the caller's own keyword arguments. */
    method CallWithHeal(h: Healer, action: string, args: seq<Value>, kw: map<string, Value>) returns (r: Outcome)
      requires Valid() && h.Valid()
      modifies h
      ensures h.Valid()
      ensures var first := page.perform(FirstCall(raw, action, args, kw));
        !IsTimeout(first) || !ShouldHeal(orig) ==>
          r == first && h.cache == old(h.cache) && h.events == old(h.events)
      ensures var first := page.perform(FirstCall(raw, action, args, kw));
        IsTimeout(first) && ShouldHeal(orig) ==>
          var res := Resolve(h.ratio, old(h.cache), page.dom, orig, DefaultThreshold);
          && h.cache == CacheAfter(old(h.cache), orig, res)
          && h.events == LogAfter(old(h.events), orig, res)
          && r == if res.NoMatch? then Raised(NoMatchError(orig, res.best))
                  else page.perform(Call(res.selector, action, args, kw))
    {
      var first := page.perform(FirstCall(raw, action, args, kw));
      if !IsTimeout(first) {
        return first;
      }
      if !ShouldHeal(orig) {
        return first;
      }
      var healed := h.FuzzyFind(page.dom, orig, DefaultThreshold);
      if healed.NoMatch? {
        return Raised(NoMatchError(healed.orig, healed.best));
      }
      r := page.perform(Call(healed.selector, action, args, kw));
    }

    /** `smart.name(*args, **kw)`: `__getattr__` sends fill, select_option and
        is_visible through `CallWithHeal`; any other name, click included, is the
        raw locator's own method, performed once with the caller's arguments
        as they are and without touching the cache or the heal log. */
    method Invoke(h: Healer, name: string, args: seq<Value>, kw: map<string, Value>) returns (r: Outcome)
      requires Valid() && h.Valid()
      modifies h
      ensures h.Valid()
      ensures name !in HealedActions ==>
        r == page.perform(Call(orig, name, args, kw)) && h.cache == old(h.cache) && h.events == old(h.events)
      ensures var first := page.perform(FirstCall(raw, name, args, kw));
        name in HealedActions && (!IsTimeout(first) || !ShouldHeal(orig)) ==>
          r == first && h.cache == old(h.cache) && h.events == old(h.events)
      ensures var first := page.perform(FirstCall(raw, name, args, kw));
        name in HealedActions && IsTimeout(first) && ShouldHeal(orig) ==>
          var res := Resolve(h.ratio, old(h.cache), page.dom, orig, DefaultThreshold);
          && h.cache == CacheAfter(old(h.cache), orig, res)
          && h.events == LogAfter(old(h.events), orig, res)
          && r == if res.NoMatch? then Raised(NoMatchError(orig, res.best))
                  else page.perform(Call(res.selector, name, args, kw))
    {
      match GetAttribute(name)
      case Healing(action) =>
        r := CallWithHeal(h, action, args, kw);
      case Plain(action) =>
        r := raw.page.perform(Call(raw.selector, action, args, kw));
    }
  }
}
