/** An already-parsed XML document, as an abstract tree of nodes, with the two
    DOM queries the meal pipeline uses: `getElementsByTagName` and
    `textContent`. */
module XmlTree {
  import opened Wrappers

  /** A DOM node. CDATA sections are `Text`; comments and processing
      instructions are `Other`: they are never matched by a tag search and
      contribute no text. */
  datatype Node =
    | Element(tag: string, children: seq<Node>)
    | Text(text: string)
    | Other

  /** The nodes under `n` that a search of `n`'s descendants visits. */
  function Kids(n: Node): seq<Node>
  {
    if n.Element? then n.children else []
  }

  /** `getElementsByTagName(tag)` on a node whose children are `ns`: every
      descendant element whose tag is exactly `tag`, in document (pre-)order. */
  function ElementsByTag(ns: seq<Node>, tag: string): (es: seq<Node>)
    ensures forall e :: e in es ==> e.Element? && e.tag == tag
    decreases ns
  {
    if ns == [] then []
    else match ns[0]
      case Element(t, kids) =>
        (if t == tag then [ns[0]] else []) + ElementsByTag(kids, tag) + ElementsByTag(ns[1..], tag)
      case _ => ElementsByTag(ns[1..], tag)
  }

  /** `e` is one of the nodes `ns` or lies somewhere below one of them. */
  ghost predicate Under(e: Node, ns: seq<Node>)
    decreases ns
  {
    exists i :: 0 <= i < |ns| && (ns[i] == e || (ns[i].Element? && Under(e, ns[i].children)))
  }

  lemma {:induction false} UnderCons(e: Node, ns: seq<Node>)
    requires ns != []
    ensures Under(e, ns) <==> e == ns[0] || (ns[0].Element? && Under(e, ns[0].children)) || Under(e, ns[1..])
  {
  }

  /** The tag search finds every element with that tag below `ns`, and
      nothing else. */
  lemma {:induction false} ElementsByTagComplete(ns: seq<Node>, tag: string)
    ensures forall e :: e in ElementsByTag(ns, tag) <==> e.Element? && e.tag == tag && Under(e, ns)
    decreases ns
  {
    if ns != [] {
      forall e
        ensures Under(e, ns) <==> e == ns[0] || (ns[0].Element? && Under(e, ns[0].children)) || Under(e, ns[1..])
      {
        UnderCons(e, ns);
      }
      match ns[0]
      case Element(t, kids) =>
        ElementsByTagComplete(kids, tag);
        ElementsByTagComplete(ns[1..], tag);
      case _ =>
        ElementsByTagComplete(ns[1..], tag);
    }
  }

  /** `getElementsByTagName(tag)[0]`: a depth-first search that stops at the
      first match; `None` plays `undefined`. */
  function FirstByTag(ns: seq<Node>, tag: string): (e: Option<Node>)
    ensures e.Some? ==> e.value.Element? && e.value.tag == tag
    decreases ns
  {
    if ns == [] then None
    else match ns[0]
      case Element(t, kids) =>
        if t == tag then Some(ns[0])
        else
          var inner := FirstByTag(kids, tag);
          if inner.Some? then inner else FirstByTag(ns[1..], tag)
      case _ => FirstByTag(ns[1..], tag)
  }

  /** The first search finds exactly the head of the full search, and finds
      nothing exactly when the full search is empty. */
  lemma {:induction false} FirstByTagIsHead(ns: seq<Node>, tag: string)
    ensures FirstByTag(ns, tag).Some? <==> |ElementsByTag(ns, tag)| > 0
    ensures FirstByTag(ns, tag).Some? ==> FirstByTag(ns, tag).value == ElementsByTag(ns, tag)[0]
    decreases ns
  {
    if ns != [] {
      match ns[0]
      case Element(t, kids) =>
        FirstByTagIsHead(kids, tag);
        FirstByTagIsHead(ns[1..], tag);
      case _ =>
        FirstByTagIsHead(ns[1..], tag);
    }
  }

  /** `FirstByTagIsHead` for every tag at once. */
  lemma FirstByTagIsHeadForAll(ns: seq<Node>)
    ensures forall tag :: FirstByTag(ns, tag).Some? <==> |ElementsByTag(ns, tag)| > 0
    ensures forall tag :: FirstByTag(ns, tag).Some? ==> FirstByTag(ns, tag).value == ElementsByTag(ns, tag)[0]
  {
    forall tag
      ensures FirstByTag(ns, tag).Some? <==> |ElementsByTag(ns, tag)| > 0
      ensures FirstByTag(ns, tag).Some? ==> FirstByTag(ns, tag).value == ElementsByTag(ns, tag)[0]
    {
      FirstByTagIsHead(ns, tag);
    }
  }

  /** `textContent` of an element: the text of all its descendant text nodes,
      concatenated in document order. */
  function TextContent(n: Node): string
  {
    match n
    case Element(_, kids) => TextOf(kids)
    case Text(t) => t
    case Other => ""
  }

  function TextOf(ns: seq<Node>): string
    decreases ns
  {
    if ns == [] then ""
    else
      (match ns[0]
       case Element(_, kids) => TextOf(kids)
       case Text(t) => t
       case Other => "") + TextOf(ns[1..])
  }

  /** The text of a node list is the text of its parts, in order: the
      concatenation `textContent` performs over an element's children. */
  lemma {:induction false} TextOfConcat(a: seq<Node>, b: seq<Node>)
    ensures TextOf(a + b) == TextOf(a) + TextOf(b)
    decreases a
  {
    if a == [] {
      assert a + b == b;
    } else {
      assert (a + b)[0] == a[0];
      assert (a + b)[1..] == a[1..] + b;
      TextOfConcat(a[1..], b);
    }
  }
}
