/** An already-parsed markup tree, standing for the lxml element the builder walks. */
module Elements {
  import opened Wrappers

  /** One element: its tag, its attributes, the text before its first child
      (`None` when lxml reports no text) and its child elements in document order. */
  datatype Element = Element(tag: string, attrs: map<string, string>, text: Option<string>, children: seq<Element>)

  /** `element.get(key, default)`: the attribute's value, or `default` when it is absent. */
  function Get(e: Element, key: string, default: string): string {
    if key in e.attrs then e.attrs[key] else default
  }

  /** The elements of `cs` whose tag is `tag`, in their order in `cs`. */
  function WithTag(cs: seq<Element>, tag: string): (r: seq<Element>)
    ensures |r| <= |cs|
  {
    if cs == [] then []
    else (if cs[0].tag == tag then [cs[0]] else []) + WithTag(cs[1..], tag)
  }

  /** `element.xpath(tag)`: the child elements named `tag`, in document order. */
  function Children(e: Element, tag: string): seq<Element> {
    WithTag(e.children, tag)
  }

  /** The selected elements are exactly the elements of `cs` carrying `tag`. */
  lemma {:induction false} WithTagMembers(cs: seq<Element>, tag: string, c: Element)
    ensures c in WithTag(cs, tag) <==> c in cs && c.tag == tag
  {
    if cs != [] {
      WithTagMembers(cs[1..], tag, c);
      assert cs == [cs[0]] + cs[1..];
    }
  }

  /** Selecting from two runs of children selects from each run, keeping their order. */
  lemma {:induction false} WithTagAppend(a: seq<Element>, b: seq<Element>, tag: string)
    ensures WithTag(a + b, tag) == WithTag(a, tag) + WithTag(b, tag)
  {
    if a != [] {
      assert (a + b)[1..] == a[1..] + b;
      WithTagAppend(a[1..], b, tag);
    } else {
      assert a + b == b;
    }
  }

  /** When every child carries the tag, the selection is all children, unchanged. */
  lemma {:induction false} WithTagAll(cs: seq<Element>, tag: string)
    requires forall i :: 0 <= i < |cs| ==> cs[i].tag == tag
    ensures WithTag(cs, tag) == cs
  {
    if cs != [] {
      WithTagAll(cs[1..], tag);
    }
  }

  /** `document.xpath('/protocol')` on a parsed root: the root itself when it is
      a `protocol` element, and nothing otherwise. */
  function ProtocolRoots(root: Element): seq<Element> {
    if root.tag == "protocol" then [root] else []
  }
}
