/** The view of a rendered page that the locator code gets from BeautifulSoup:
    the elements in document order, each with its tag, the attributes the code
    reads and its text. */
module Markup {

  datatype Option<T> = None | Some(value: T)

  /** One markup element. `id`, `name` and `typeAttribute` are absent (`None`)
      when the attribute is not written; `classes` is the element's class list
      (empty when it has none); `text` is what `get_text()` returns. */
  datatype Element = Element(
    tag: string,
    id: Option<string>,
    name: Option<string>,
    typeAttribute: Option<string>,
    classes: seq<string>,
    text: string)

  /** Python truthiness of `el.get(attr)`: the attribute is written and not empty. */
  predicate Present(a: Option<string>) {
    a.Some? && a.value != ""
  }

  /** `el.get(attr, default)`. */
  function GetOr(a: Option<string>, default: string): string {
    if a.Some? then a.value else default
  }

  /** `soup.find_all(tags)`: the elements whose tag is one of `tags`, in
      document order. */
  function FindAll(els: seq<Element>, tags: set<string>): (r: seq<Element>)
    ensures |r| <= |els|
    ensures forall i :: 0 <= i < |r| ==> r[i].tag in tags && r[i] in els
    ensures forall e :: e in els && e.tag in tags ==> e in r
  {
    if els == [] then []
    else (if els[0].tag in tags then [els[0]] else []) + FindAll(els[1..], tags)
  }

  /** Filtering a page split in two is filtering each part: `find_all` keeps
      document order. */
  lemma {:induction false} FindAllConcat(a: seq<Element>, b: seq<Element>, tags: set<string>)
    ensures FindAll(a + b, tags) == FindAll(a, tags) + FindAll(b, tags)
  {
    if a == [] {
      assert a + b == b;
    } else {
      assert (a + b)[1..] == a[1..] + b;
      FindAllConcat(a[1..], b, tags);
    }
  }
}
