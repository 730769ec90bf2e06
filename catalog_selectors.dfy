/** The offline registry builder of scripts/catalog_selectors.py: which routes
    are crawled, how a page's controls become registry entries, and the coarse
    classification stored with each entry. */
module Catalog {
  import opened Text
  import opened Markup

  /** Tags a page is scanned for (`TAGS`). */
  const Tags: set<string> := {"input", "select", "textarea", "button", "a"}

  /** `classify`: the coarse class of a control. */
  function Classify(e: Element): string {
    if e.tag == "input" then "input." + Lower(GetOr(e.typeAttribute, "text"))
    else if e.tag == "button" then
      if Lower(GetOr(e.typeAttribute, "")) == "submit" then "button.submit" else "button"
    else e.tag
  }

  /** The part of a classification before its first dot. */
  function BeforeDot(s: string): (r: string)
    ensures |r| <= |s| && r == s[..|r|]
    ensures '.' !in r
    ensures |r| < |s| ==> s[|r|] == '.'
  {
    if s == [] || s[0] == '.' then [] else [s[0]] + BeforeDot(s[1..])
  }

  lemma BeforeDotOf(w: string, rest: string)
    requires '.' !in w
    requires rest == [] || rest[0] == '.'
    ensures BeforeDot(w + rest) == w
  {
    var r := BeforeDot(w + rest);
    assert r == (w + rest)[..|w|] == w;
  }

  /** A classification starts with its element's tag name, up to the first dot. */
  lemma ClassifyKeepsTag(e: Element)
    requires '.' !in e.tag
    ensures BeforeDot(Classify(e)) == e.tag
  {
    var c := Classify(e);
    if e.tag == "input" {
      var kind := Lower(GetOr(e.typeAttribute, "text"));
      assert c == "input" + ("." + kind);
      BeforeDotOf("input", "." + kind);
    } else if e.tag == "button" && c == "button.submit" {
      assert c == "button" + ".submit";
      BeforeDotOf("button", ".submit");
    } else {
      BeforeDotOf(e.tag, "");
    }
  }

  /** The type attribute is compared without regard to case. */
  lemma ClassifyIgnoresCase(e: Element, t: string)
    ensures Classify(e.(typeAttribute := Some(t))) == Classify(e.(typeAttribute := Some(Lower(t))))
  {
  }

  /** Only a button whose type lowercases to "submit" is classed as a submit
      button. */
  lemma SubmitButtonIff(e: Element)
    requires '.' !in e.tag
    ensures Classify(e) == "button.submit" <==>
              e.tag == "button" && Lower(GetOr(e.typeAttribute, "")) == "submit"
  {
    if e.tag == "input" {
      assert Classify(e)[0] == 'i';
    } else if e.tag != "button" {
      assert "button.submit"[6] == '.';
    }
  }

  /** One registry entry: a selector and the classification of its element. */
  datatype Entry = Entry(selector: string, classification: string)

  /** The element carries an id or a name to heal against. */
  predicate Identifiable(e: Element) {
    Present(e.id) || Present(e.name)
  }

  /** The entry `parse` writes for an element: `#id`, else `[name="…"]`. */
  function EntryFor(e: Element): Entry
    requires Identifiable(e)
  {
    Entry(if Present(e.id) then "#" + e.id.value else "[name=\"" + e.name.value + "\"]", Classify(e))
  }

  /** The entries for the scanned elements `found`, in their order. */
  function Entries(found: seq<Element>): (r: seq<Entry>)
    ensures |r| <= |found|
    decreases |found|
  {
    if found == [] then []
    else
      var last := found[|found| - 1];
      Entries(found[..|found| - 1]) + if Identifiable(last) then [EntryFor(last)] else []
  }

  /** Entries of a page split in two are the entries of each part, in order. */
  lemma {:induction false} EntriesConcat(a: seq<Element>, b: seq<Element>)
    ensures Entries(a + b) == Entries(a) + Entries(b)
    decreases |b|
  {
    if b == [] {
      assert a + b == a;
    } else {
      var n := |b| - 1;
      assert (a + b)[..|a + b| - 1] == a + b[..n];
      EntriesConcat(a, b[..n]);
    }
  }

  /** One element yields its entry, or nothing when it has neither id nor name. */
  lemma EntriesSingle(e: Element)
    ensures Entries([e]) == if Identifiable(e) then [EntryFor(e)] else []
  {
  }

  /** Elements with neither id nor name contribute nothing. */
  lemma {:induction false} EntriesSkipAnonymous(found: seq<Element>)
    requires forall i :: 0 <= i < |found| ==> !Identifiable(found[i])
    ensures Entries(found) == []
    decreases |found|
  {
    if found != [] {
      EntriesSkipAnonymous(found[..|found| - 1]);
    }
  }

  /** `parse`: one entry per scanned element that has an id or a name. */
  method Parse(dom: seq<Element>) returns (selectors: seq<Entry>)
    ensures selectors == Entries(FindAll(dom, Tags))
    ensures |selectors| <= |FindAll(dom, Tags)|
  {
    var found := FindAll(dom, Tags);
    selectors := [];
    for i := 0 to |found|
      invariant selectors == Entries(found[..i])
    {
      var tag := found[i];
      assert found[..i + 1][..i] == found[..i];
      if !Present(tag.id) && !Present(tag.name) {
        continue;
      }
      selectors := selectors + [EntryFor(tag)];
    }
    assert found[..|found|] == found;
  }

  /** `selector`: `tag#id`, else `tag[name="…"]`, else the empty string. */
  function Selector(e: Element): string {
    if Present(e.id) then e.tag + "#" + e.id.value
    else if Present(e.name) then e.tag + "[name=\"" + e.name.value + "\"]"
    else ""
  }

  /** `selector` is the tag name in front of the entry `parse` writes, and it is
      empty exactly for the elements `parse` skips. */
  lemma SelectorExtendsEntry(e: Element)
    ensures Identifiable(e) ==> Selector(e) == e.tag + EntryFor(e).selector
    ensures Selector(e) == "" <==> !Identifiable(e)
  {
  }

  /** One rule of the web application's URL map. */
  datatype Rule = Rule(rule: string, endpoint: string, methods: set<string>)

  /** The routes `crawl` visits: no `<` parameter, not the static-file helper,
      GET allowed. */
  predicate Crawled(r: Rule) {
    !Contains(r.rule, "<") && r.endpoint != "static" && "GET" in r.methods
  }

  /** The paths `crawl` visits, in URL-map order. */
  function CrawlOrder(rules: seq<Rule>): (paths: seq<string>)
    ensures |paths| <= |rules|
    ensures forall k :: 0 <= k < |paths| ==>
              exists i :: 0 <= i < |rules| && Crawled(rules[i]) && rules[i].rule == paths[k]
    ensures forall i :: 0 <= i < |rules| && Crawled(rules[i]) ==> rules[i].rule in paths
    decreases |rules|
  {
    if rules == [] then []
    else
      var last := rules[|rules| - 1];
      var front := rules[..|rules| - 1];
      assert forall i :: 0 <= i < |front| ==> front[i] == rules[i];
      CrawlOrder(front) + if Crawled(last) then [last.rule] else []
  }

  /** The route filter of `crawl`'s loop over the URL map. */
  method RoutesToCrawl(rules: seq<Rule>) returns (paths: seq<string>)
    ensures paths == CrawlOrder(rules)
  {
    paths := [];
    for i := 0 to |rules|
      invariant paths == CrawlOrder(rules[..i])
    {
      var rule := rules[i];
      assert rules[..i + 1][..i] == rules[..i];
      if Contains(rule.rule, "<") || rule.endpoint == "static" {
        continue;
      }
      if "GET" in rule.methods {
        paths := paths + [rule.rule];
      }
    }
    assert rules[..|rules|] == rules;
  }
}
