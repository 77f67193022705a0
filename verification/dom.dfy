/** An immutable stand-in for a parsed HTML document (a BeautifulSoup tree):
    elements with a tag name, a class list, the remaining attributes and an
    ordered list of children, and text nodes. The document itself is an
    element (tag `[document]`, no classes) at the root. */
module Dom {
  import opened Basics
  import opened Text

  datatype Node =
    | TextNode(content: string)
    | Element(tag: string, classes: seq<string>, attrs: map<string, string>, children: seq<Node>)

  /** `tag.get(name)` for an attribute other than `class`. */
  function Attr(n: Node, name: string): Option<string> {
    if n.Element? && name in n.attrs then Some(n.attrs[name]) else None
  }

  /** `tag.get(name) or ""`: the attribute value, with absence read as empty. */
  function AttrOrEmpty(n: Node, name: string): string {
    Attr(n, name).GetOr("")
  }

  /** The element descendants of `n` in document order, `n` itself excluded
      (what `select`, `select_one` and `find` search). */
  function Descendants(n: Node): seq<Node>
    decreases n, 1
  {
    match n
    case TextNode(_) => []
    case Element(_, _, _, cs) => ForestDescendants(cs)
  }

  function ForestDescendants(cs: seq<Node>): seq<Node>
    decreases cs, 0
  {
    if cs == [] then []
    else
      (if cs[0].Element? then [cs[0]] else []) + Descendants(cs[0]) + ForestDescendants(cs[1..])
  }

  /** `root.find(...)`: the first element below `root`, in document order,
      that satisfies `p`. */
  function Find(root: Node, p: Node -> bool): (r: Option<Node>)
    ensures r.Some? ==> p(r.value) && exists i :: (0 <= i < |Descendants(root)| &&
              Descendants(root)[i] == r.value && forall j :: 0 <= j < i ==> !p(Descendants(root)[j]))
    ensures r.None? ==> forall d :: d in Descendants(root) ==> !p(d)
  {
    var ds := Descendants(root);
    match FirstIndex(ds, p)
    case None => None
    case Some(i) => Some(ds[i])
  }

  /** The text nodes below `n`, in document order. */
  function Strings(n: Node): seq<string>
    decreases n, 1
  {
    match n
    case TextNode(s) => [s]
    case Element(_, _, _, cs) => ForestStrings(cs)
  }

  function ForestStrings(cs: seq<Node>): seq<string>
    decreases cs, 0
  {
    if cs == [] then [] else Strings(cs[0]) + ForestStrings(cs[1..])
  }

  /** The strings `get_text(strip=True)` keeps: each one stripped, the blank
      ones dropped. */
  function StrippedStrings(ss: seq<string>): (r: seq<string>)
    ensures forall t :: t in r ==> t != [] && Strip(t) == t
    ensures |r| <= |ss|
  {
    if ss == [] then []
    else
      StripIdempotent(ss[0]);
      var rest := StrippedStrings(ss[1..]);
      if Strip(ss[0]) == [] then rest else [Strip(ss[0])] + rest
  }

  /** `tag.get_text(sep, strip=True)`. */
  function GetText(n: Node, sep: string): string {
    Join(StrippedStrings(Strings(n)), sep)
  }

  /** An element together with its ancestors, nearest first; the last ancestor
      is the document root. */
  datatype Located = Located(node: Node, ancestors: seq<Node>)

  /** The element descendants of `n` in document order, each located; `above`
      are the ancestors of `n` itself. */
  function Walk(n: Node, above: seq<Node>): seq<Located>
    decreases n, 1
  {
    match n
    case TextNode(_) => []
    case Element(_, _, _, cs) => ForestWalk(cs, [n] + above)
  }

  function ForestWalk(cs: seq<Node>, above: seq<Node>): seq<Located>
    decreases cs, 0
  {
    if cs == [] then []
    else
      (if cs[0].Element? then [Located(cs[0], above)] else []) + Walk(cs[0], above) +
      ForestWalk(cs[1..], above)
  }

  function Nodes(ls: seq<Located>): (ns: seq<Node>)
    ensures |ns| == |ls| && forall i :: 0 <= i < |ls| ==> ns[i] == ls[i].node
  {
    if ls == [] then [] else [ls[0].node] + Nodes(ls[1..])
  }

  lemma NodesAppend(a: seq<Located>, b: seq<Located>)
    ensures Nodes(a + b) == Nodes(a) + Nodes(b)
  {
  }

  /** Walking the tree visits exactly the descendants, in the same order, and
      every visited element's nearest ancestor is its parent. */
  lemma {:induction false} WalkVisitsDescendants(n: Node, above: seq<Node>)
    ensures Nodes(Walk(n, above)) == Descendants(n)
    decreases n, 1
  {
    match n
    case TextNode(_) =>
    case Element(_, _, _, cs) => ForestWalkVisitsDescendants(cs, [n] + above);
  }

  lemma {:induction false} ForestWalkVisitsDescendants(cs: seq<Node>, above: seq<Node>)
    ensures Nodes(ForestWalk(cs, above)) == ForestDescendants(cs)
    decreases cs, 0
  {
    if cs != [] {
      WalkVisitsDescendants(cs[0], above);
      ForestWalkVisitsDescendants(cs[1..], above);
      var head: seq<Located> := if cs[0].Element? then [Located(cs[0], above)] else [];
      NodesAppend(head, Walk(cs[0], above));
      NodesAppend(head + Walk(cs[0], above), ForestWalk(cs[1..], above));
    }
  }
}
