/** The W3C DOM tree the substitution passes walk, as a value. */
module Dom {

  /** An XML name: never empty. */
  type Name = s: string | |s| > 0 witness "a"

  /** An element node with its tag name and its ordered child nodes, a text node, or any
      other kind of node (comment, CDATA section, processing instruction), which both
      substitution passes leave alone. */
  datatype Node = Element(tag: Name, children: seq<Node>) | Text(text: string) | Other

  /** The document element of a parsed document is always an element. */
  type ElementNode = n: Node | n.Element? witness Element("a", [])

  /** No element in the subtree rooted at `n`, `n` included, has tag `name`. */
  predicate NoElementNamed(n: Node, name: string)
  {
    match n
    case Element(tag, cs) => tag != name && forall i :: 0 <= i < |cs| ==> NoElementNamed(cs[i], name)
    case _ => true
  }

  /** No element strictly below `e` has tag `name` (the tag of `e` itself is not looked at). */
  predicate NoDescendantNamed(e: Node, name: string)
  {
    e.Element? ==> forall i :: 0 <= i < |e.children| ==> NoElementNamed(e.children[i], name)
  }

  /** `a` and `b` have the same node kinds, the same tags and the same number of children
      everywhere; only the strings of text nodes may differ. */
  predicate SameShape(a: Node, b: Node)
  {
    match a
    case Element(tag, cs) =>
      && b.Element? && b.tag == tag && |b.children| == |cs|
      && forall i :: 0 <= i < |cs| ==> SameShape(cs[i], b.children[i])
    case Text(_) => b.Text?
    case Other => b.Other?
  }

  /** Every element in the subtree rooted at `n` whose tag is `name` holds exactly one
      child, the text node `value`. */
  predicate FieldsHold(n: Node, name: string, value: string)
  {
    match n
    case Element(tag, cs) =>
      && (tag == name ==> cs == [Text(value)])
      && forall i :: 0 <= i < |cs| ==> FieldsHold(cs[i], name, value)
    case _ => true
  }

  /** No element is named by the empty string. */
  lemma {:induction false} NoElementNamedEmpty(n: Node)
    ensures NoElementNamed(n, "")
  {
    match n
    case Element(tag, cs) =>
      forall i | 0 <= i < |cs| ensures NoElementNamed(cs[i], "") {
        NoElementNamedEmpty(cs[i]);
      }
    case _ =>
  }

  /** Every tree has the same shape as itself. */
  lemma {:induction false} SameShapeReflexive(n: Node)
    ensures SameShape(n, n)
  {
    match n
    case Element(tag, cs) =>
      forall i | 0 <= i < |cs| ensures SameShape(cs[i], cs[i]) {
        SameShapeReflexive(cs[i]);
      }
    case _ =>
  }
}
