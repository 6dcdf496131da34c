/** Template substitution of `PmlUtils.applyTemplates`: for each (field, value) entry, first
    the structural pass `replaceFieldValue`, then the text pass `replaceTextContent`, over
    one shared document tree. */
module PmlUtils {
  import opened Wrappers
  import opened Dom
  import opened JavaStrings

  // ---------------------------------------------------------------------------------
  // Structural pass: replaceFieldValue
  // ---------------------------------------------------------------------------------

  /** The tree `replaceFieldValue(e, fieldName, newValue)` leaves behind: each child of `e`
      is rewritten by `ChildFieldReplaced`; the tag of `e` itself is never compared, so `e`
      keeps its tag and its number of children. */
  function FieldReplaced(e: Node, fieldName: string, newValue: string): (r: Node)
    ensures r.Element? <==> e.Element?
    ensures e.Element? ==> r.tag == e.tag && |r.children| == |e.children|
    decreases e, 0
  {
    match e
    case Element(tag, cs) =>
      Element(tag, seq(|cs|, i requires 0 <= i < |cs| => ChildFieldReplaced(cs[i], fieldName, newValue)))
    case _ => e
  }

  /** What the loop of `replaceFieldValue` does to one child: an element whose tag equals
      the field name loses all its children and gets a single text node with the value
      (and is not descended into); any other element is searched recursively; text and
      other nodes are skipped. */
  function ChildFieldReplaced(n: Node, fieldName: string, newValue: string): Node
    decreases n, 1
  {
    if n.Element? && fieldName == n.tag then Element(n.tag, [Text(newValue)])
    else FieldReplaced(n, fieldName, newValue)
  }

  /** `replaceFieldValue`: an index loop over the children of `element`; a matching child
      has its children removed from the last one down and a text node appended, any other
      element child is searched recursively. */
  method ReplaceFieldValue(element: Node, fieldName: string, newValue: string) returns (r: Node)
    requires element.Element?
    ensures r == FieldReplaced(element, fieldName, newValue)
    decreases element
  {
    var children := element.children;
    for i := 0 to |children|
      invariant |children| == |element.children|
      invariant forall k :: 0 <= k < i ==> children[k] == ChildFieldReplaced(element.children[k], fieldName, newValue)
      invariant forall k :: i <= k < |children| ==> children[k] == element.children[k]
    {
      var node := children[i];
      if node.Element? {
        if fieldName == node.tag {
          var contentNodes := RemoveAllChildren(node.children);
          children := children[i := Element(node.tag, contentNodes + [Text(newValue)])];
        } else {
          assert node == element.children[i];
          var replaced := ReplaceFieldValue(node, fieldName, newValue);
          children := children[i := replaced];
        }
      }
    }
    r := Element(element.tag, children);
  }

  /** The removal loop of `replaceFieldValue`: children are removed one at a time, from the
      last index down to 0, which leaves none. */
  method RemoveAllChildren(contentNodes: seq<Node>) returns (remaining: seq<Node>)
    ensures remaining == []
  {
    remaining := contentNodes;
    var j := |remaining| - 1;
    while j >= 0
      invariant -1 <= j < |contentNodes|
      invariant remaining == contentNodes[..j + 1]
    {
      remaining := remaining[..j] + remaining[j + 1..];
      j := j - 1;
    }
  }

  /** Every element below `e` whose tag is the field name ends up holding exactly the text
      node with the new value: matched elements directly, and nested ones because a matched
      element is not descended into, so whatever it contained, a same-named element
      included, is gone. */
  lemma {:induction false} FieldReplacedSetsEveryField(e: Node, fieldName: string, newValue: string)
    requires e.Element?
    ensures forall i :: 0 <= i < |e.children| ==>
              FieldsHold(FieldReplaced(e, fieldName, newValue).children[i], fieldName, newValue)
    decreases e, 0
  {
    var r := FieldReplaced(e, fieldName, newValue);
    forall i | 0 <= i < |r.children| ensures FieldsHold(r.children[i], fieldName, newValue) {
      ChildFieldReplacedSetsEveryField(e.children[i], fieldName, newValue);
    }
  }

  lemma {:induction false} ChildFieldReplacedSetsEveryField(n: Node, fieldName: string, newValue: string)
    ensures FieldsHold(ChildFieldReplaced(n, fieldName, newValue), fieldName, newValue)
    decreases n, 1
  {
    var r := ChildFieldReplaced(n, fieldName, newValue);
    if n.Element? && fieldName != n.tag {
      FieldReplacedSetsEveryField(n, fieldName, newValue);
      assert r == FieldReplaced(n, fieldName, newValue);
      assert r.Element? && r.tag == n.tag;
    } else if n.Element? {
      assert FieldsHold(Text(newValue), fieldName, newValue);
      assert r.children == [Text(newValue)];
    }
  }

  /** A field name that no element below `e` carries leaves the tree unchanged; nothing
      fails. */
  lemma {:induction false} FieldReplacedUnmatched(e: Node, fieldName: string, newValue: string)
    requires NoDescendantNamed(e, fieldName)
    ensures FieldReplaced(e, fieldName, newValue) == e
    decreases e, 0
  {
    match e
    case Element(tag, cs) =>
      forall i | 0 <= i < |cs| ensures ChildFieldReplaced(cs[i], fieldName, newValue) == cs[i] {
        ChildFieldReplacedUnmatched(cs[i], fieldName, newValue);
      }
      assert FieldReplaced(e, fieldName, newValue).children == cs;
    case _ =>
  }

  lemma {:induction false} ChildFieldReplacedUnmatched(n: Node, fieldName: string, newValue: string)
    requires NoElementNamed(n, fieldName)
    ensures ChildFieldReplaced(n, fieldName, newValue) == n
    decreases n, 1
  {
    FieldReplacedUnmatched(n, fieldName, newValue);
  }

  /** The empty field name matches no element, since XML names are never empty. */
  lemma EmptyFieldNameChangesNothing(e: Node, newValue: string)
    ensures FieldReplaced(e, "", newValue) == e
  {
    if e.Element? {
      forall i | 0 <= i < |e.children| ensures NoElementNamed(e.children[i], "") {
        NoElementNamedEmpty(e.children[i]);
      }
    }
    FieldReplacedUnmatched(e, "", newValue);
  }

  /** Running the structural pass twice with the same entry changes nothing more. */
  lemma {:induction false} FieldReplacedIdempotent(e: Node, fieldName: string, newValue: string)
    ensures var r := FieldReplaced(e, fieldName, newValue);
            FieldReplaced(r, fieldName, newValue) == r
    decreases e, 0
  {
    match e
    case Element(tag, cs) =>
      var r := FieldReplaced(e, fieldName, newValue);
      forall i | 0 <= i < |cs| ensures ChildFieldReplaced(r.children[i], fieldName, newValue) == r.children[i] {
        ChildFieldReplacedIdempotent(cs[i], fieldName, newValue);
      }
      assert FieldReplaced(r, fieldName, newValue).children == r.children;
    case _ =>
  }

  lemma {:induction false} ChildFieldReplacedIdempotent(n: Node, fieldName: string, newValue: string)
    ensures var r := ChildFieldReplaced(n, fieldName, newValue);
            ChildFieldReplaced(r, fieldName, newValue) == r
    decreases n, 1
  {
    if !(n.Element? && fieldName == n.tag) {
      FieldReplacedIdempotent(n, fieldName, newValue);
    }
  }

  /** The root is never compared: a root whose own tag is the field name keeps its
      content. */
  lemma RootIsNotReplaced(fieldName: Name, text: string, newValue: string)
    ensures FieldReplaced(Element(fieldName, [Text(text)]), fieldName, newValue)
         == Element(fieldName, [Text(text)])
  {
    assert FieldReplaced(Element(fieldName, [Text(text)]), fieldName, newValue).children
        == [ChildFieldReplaced(Text(text), fieldName, newValue)];
  }

  /** A same-named element nested in a replaced one disappears instead of being replaced
      on its own. */
  lemma NestedFieldDisappears()
    ensures FieldReplaced(Element("prompt", [Element("goal", [Element("goal", [Text("inner")])])]), "goal", "v")
         == Element("prompt", [Element("goal", [Text("v")])])
  {
    var outer := Element("goal", [Element("goal", [Text("inner")])]);
    assert ChildFieldReplaced(outer, "goal", "v") == Element("goal", [Text("v")]);
  }

  /** The structural pass for one field leaves the values of another field as they were: a
      matched element of the other field keeps its single text node. */
  lemma {:induction false} ChildFieldReplacedKeepsFields(n: Node, fieldName: string, newValue: string,
                                                         other: string, w: string)
    requires fieldName != other && FieldsHold(n, other, w)
    ensures FieldsHold(ChildFieldReplaced(n, fieldName, newValue), other, w)
  {
    if n.Element? && n.tag != fieldName {
      var r := ChildFieldReplaced(n, fieldName, newValue);
      assert r == FieldReplaced(n, fieldName, newValue);
      forall i | 0 <= i < |n.children| ensures FieldsHold(r.children[i], other, w) {
        ChildFieldReplacedKeepsFields(n.children[i], fieldName, newValue, other, w);
      }
      if n.tag == other {
        assert r.children == [ChildFieldReplaced(Text(w), fieldName, newValue)];
      }
    }
  }

  // ---------------------------------------------------------------------------------
  // Text pass: replaceTextContent
  // ---------------------------------------------------------------------------------

  /** The tree `replaceTextContent(n, pattern, replacement)` leaves behind: nothing happens
      for an empty pattern; otherwise every text node's string becomes
      `text.replace(pattern, replacement)` and every element is searched recursively. The
      shape of the tree is kept. */
  function TextReplaced(n: Node, pattern: string, replacement: string): (r: Node)
    ensures SameShape(n, r)
  {
    if pattern == [] then SameShapeReflexive(n); n
    else match n
      case Text(t) => Text(Replace(t, pattern, replacement))
      case Element(tag, cs) =>
        Element(tag, seq(|cs|, i requires 0 <= i < |cs| => TextReplaced(cs[i], pattern, replacement)))
      case Other => n
  }

  /** `replaceTextContent`: a text node containing the pattern gets its text replaced, an
      element has each child processed in turn by an index loop. */
  method ReplaceTextContent(node: Node, pattern: string, replacement: string) returns (r: Node)
    ensures r == TextReplaced(node, pattern, replacement)
    ensures pattern == [] ==> r == node
    decreases node
  {
    if pattern == [] {
      return node;
    }
    match node {
      case Text(text) =>
        if Contains(text, pattern) {
          r := Text(Replace(text, pattern, replacement));
        } else {
          ReplaceAbsent(text, pattern, replacement);
          r := node;
        }
      case Element(tag, cs) =>
        var children := cs;
        for i := 0 to |children|
          invariant |children| == |cs|
          invariant forall k :: 0 <= k < i ==> children[k] == TextReplaced(cs[k], pattern, replacement)
          invariant forall k :: i <= k < |children| ==> children[k] == cs[k]
        {
          var child := ReplaceTextContent(children[i], pattern, replacement);
          children := children[i := child];
        }
        r := Element(tag, children);
      case Other =>
        r := node;
    }
  }

  /** No text node in the subtree rooted at `n` contains `pattern`. */
  predicate NoTextContains(n: Node, pattern: string)
  {
    match n
    case Text(t) => !Contains(t, pattern)
    case Element(_, cs) => forall i :: 0 <= i < |cs| ==> NoTextContains(cs[i], pattern)
    case Other => true
  }

  /** A pattern that occurs in no text node leaves the tree unchanged. */
  lemma {:induction false} TextReplacedAbsent(n: Node, pattern: string, replacement: string)
    requires NoTextContains(n, pattern)
    ensures TextReplaced(n, pattern, replacement) == n
  {
    if pattern != [] {
      match n
      case Text(t) => ReplaceAbsent(t, pattern, replacement);
      case Element(tag, cs) =>
        forall i | 0 <= i < |cs| ensures TextReplaced(cs[i], pattern, replacement) == cs[i] {
          TextReplacedAbsent(cs[i], pattern, replacement);
        }
        assert TextReplaced(n, pattern, replacement).children == cs;
      case Other =>
    }
  }

  /** The text pass keeps what the structural pass set up, provided the value does not
      itself contain the field name. */
  lemma {:induction false} TextReplacedKeepsFields(n: Node, fieldName: string, newValue: string)
    requires FieldsHold(n, fieldName, newValue) && !Contains(newValue, fieldName)
    ensures FieldsHold(TextReplaced(n, fieldName, newValue), fieldName, newValue)
  {
    EmptyContained(newValue);
    TextReplacedRewritesFields(n, fieldName, newValue, fieldName, newValue);
    ReplaceAbsent(newValue, fieldName, newValue);
  }

  /** The text pass with a non-empty pattern turns every field value `w` that the tree holds
      into `w.replace(pattern, replacement)`, and nothing else about the fields changes. */
  lemma {:induction false} TextReplacedRewritesFields(n: Node, fieldName: string, w: string,
                                                      pattern: string, replacement: string)
    requires pattern != [] && FieldsHold(n, fieldName, w)
    ensures FieldsHold(TextReplaced(n, pattern, replacement), fieldName, Replace(w, pattern, replacement))
  {
    match n
    case Element(tag, cs) =>
      var r := TextReplaced(n, pattern, replacement);
      forall i | 0 <= i < |cs| ensures FieldsHold(r.children[i], fieldName, Replace(w, pattern, replacement)) {
        TextReplacedRewritesFields(cs[i], fieldName, w, pattern, replacement);
      }
      if tag == fieldName {
        assert r.children == [TextReplaced(Text(w), pattern, replacement)];
      }
    case _ =>
  }

  // ---------------------------------------------------------------------------------
  // applyTemplates
  // ---------------------------------------------------------------------------------

  /** One entry of the template map: the structural pass on the whole tree first, then the
      text pass on the tree it produced. */
  function ApplyEntry(root: Node, fieldName: string, fieldValue: string): Node
  {
    TextReplaced(FieldReplaced(root, fieldName, fieldValue), fieldName, fieldValue)
  }

  /** The entries applied one after the other, in iteration order; the root keeps its
      tag. */
  function Applied(root: Node, entries: seq<(string, string)>): (r: Node)
    ensures r.Element? <==> root.Element?
    ensures root.Element? ==> r.tag == root.tag
  {
    if entries == [] then root
    else
      var last := entries[|entries| - 1];
      ApplyEntry(Applied(root, entries[..|entries| - 1]), last.0, last.1)
  }

  /** `order` is a possible `HashMap` iteration order of `m`: each key exactly once. */
  ghost predicate IsIterationOrder(order: seq<string>, m: map<string, string>)
  {
    && (forall i, j :: 0 <= i < j < |order| ==> order[i] != order[j])
    && (forall key :: key in m <==> key in order)
  }

  /** The map's entries in the given iteration order. */
  function Entries(m: map<string, string>, order: seq<string>): seq<(string, string)>
    requires IsIterationOrder(order, m)
  {
    seq(|order|, i requires 0 <= i < |order| => (order[i], m[order[i]]))
  }

  /** The parse exception that `applyTemplates` propagates. */
  datatype ApplyError = MalformedInput

  /** What `applyTemplates` returns: the content verbatim, without parsing it, for a null or
      empty map; otherwise the parse error, or the serialization of the substituted tree. */
  function Substituted(pmlContent: string, templateMap: Option<map<string, string>>, order: seq<string>,
                       parse: string -> Option<ElementNode>, serialize: Node -> string): Result<string, ApplyError>
    requires templateMap.Some? ==> IsIterationOrder(order, templateMap.value)
  {
    if templateMap.None? || templateMap.value == map[] then Ok(pmlContent)
    else match parse(pmlContent)
      case None => Err(MalformedInput)
      case Some(root) => Ok(serialize(Applied(root, Entries(templateMap.value, order))))
  }

  /** `applyTemplates`: parses the content, runs both passes for every entry in the map's
      iteration order over the one document, and serializes it. */
  method ApplyTemplates(pmlContent: string, templateMap: Option<map<string, string>>, order: seq<string>,
                        parse: string -> Option<ElementNode>, serialize: Node -> string)
    returns (r: Result<string, ApplyError>)
    requires templateMap.Some? ==> IsIterationOrder(order, templateMap.value)
    ensures r == Substituted(pmlContent, templateMap, order, parse, serialize)
    ensures templateMap.None? || templateMap.value == map[] ==> r == Ok(pmlContent)
  {
    if templateMap.None? || templateMap.value == map[] {
      return Ok(pmlContent);
    }
    var doc := parse(pmlContent);
    if doc.None? {
      return Err(MalformedInput);
    }
    var root: Node := doc.value;
    var entries := Entries(templateMap.value, order);
    for i := 0 to |entries|
      invariant root == Applied(doc.value, entries[..i])
    {
      var (fieldName, fieldValue) := entries[i];
      assert entries[..i + 1][..i] == entries[..i];
      root := ReplaceFieldValue(root, fieldName, fieldValue);
      root := ReplaceTextContent(root, fieldName, fieldValue);
    }
    assert entries[..|entries|] == entries;
    r := Ok(serialize(root));
  }

  /** Entries whose field names match no element and no text leave the document unchanged,
      and nothing fails. */
  lemma {:induction false} AppliedUnmatched(root: Node, entries: seq<(string, string)>)
    requires forall i :: 0 <= i < |entries| ==>
              NoDescendantNamed(root, entries[i].0) && (entries[i].0 == [] || NoTextContains(root, entries[i].0))
    ensures Applied(root, entries) == root
  {
    if entries != [] {
      var last := entries[|entries| - 1];
      AppliedUnmatched(root, entries[..|entries| - 1]);
      FieldReplacedUnmatched(root, last.0, last.1);
      if last.0 != [] {
        TextReplacedAbsent(root, last.0, last.1);
      }
    }
  }

  /** One entry with a non-empty field name: every element below the root named by the field
      ends up holding `value.replace(fieldName, value)`, because the text pass runs over the
      value the structural pass has just written. */
  lemma SingleEntryRewritesEveryField(root: Node, fieldName: string, fieldValue: string)
    requires root.Element? && fieldName != []
    ensures forall i :: 0 <= i < |Applied(root, [(fieldName, fieldValue)]).children| ==>
              FieldsHold(Applied(root, [(fieldName, fieldValue)]).children[i], fieldName,
                         Replace(fieldValue, fieldName, fieldValue))
  {
    var s := FieldReplaced(root, fieldName, fieldValue);
    FieldReplacedSetsEveryField(root, fieldName, fieldValue);
    var r := TextReplaced(s, fieldName, fieldValue);
    assert Applied(root, [(fieldName, fieldValue)]) == r by {
      assert [(fieldName, fieldValue)][..0] == [];
    }
    forall i | 0 <= i < |r.children|
      ensures FieldsHold(r.children[i], fieldName, Replace(fieldValue, fieldName, fieldValue))
    {
      assert r.children[i] == TextReplaced(s.children[i], fieldName, fieldValue);
      TextReplacedRewritesFields(s.children[i], fieldName, fieldValue, fieldName, fieldValue);
    }
  }

  /** With a single entry whose value does not contain the field name, every element below
      the root named by the field holds exactly that value afterwards. */
  lemma SingleEntrySetsEveryField(root: Node, fieldName: string, fieldValue: string)
    requires root.Element? && !Contains(fieldValue, fieldName)
    ensures forall i :: 0 <= i < |Applied(root, [(fieldName, fieldValue)]).children| ==>
              FieldsHold(Applied(root, [(fieldName, fieldValue)]).children[i], fieldName, fieldValue)
  {
    EmptyContained(fieldValue);
    SingleEntryRewritesEveryField(root, fieldName, fieldValue);
    ReplaceAbsent(fieldValue, fieldName, fieldValue);
  }

  /** Several entries with distinct field names, none of whose values contains any entry's
      name: afterwards every element below the root named by an entry holds exactly that
      entry's value. */
  lemma {:induction false} AppliedSetsEveryField(root: Node, entries: seq<(string, string)>)
    requires root.Element?
    requires forall i, j :: 0 <= i < j < |entries| ==> entries[i].0 != entries[j].0
    requires forall i, j :: 0 <= i < |entries| && 0 <= j < |entries| ==> !Contains(entries[i].1, entries[j].0)
    ensures forall k, c :: 0 <= k < |entries| && 0 <= c < |Applied(root, entries).children| ==>
              FieldsHold(Applied(root, entries).children[c], entries[k].0, entries[k].1)
  {
    if entries != [] {
      var n := |entries| - 1;
      var front := entries[..n];
      var (f, v) := entries[n];
      AppliedSetsEveryField(root, front);
      var prev := Applied(root, front);
      var s := FieldReplaced(prev, f, v);
      var r := TextReplaced(s, f, v);
      EmptyContained(v);
      assert f != [];
      assert Applied(root, entries) == r;
      FieldReplacedSetsEveryField(prev, f, v);
      forall k, c | 0 <= k < |entries| && 0 <= c < |r.children|
        ensures FieldsHold(r.children[c], entries[k].0, entries[k].1)
      {
        var (g, w) := entries[k];
        if k < n {
          assert front[k] == entries[k];
          ChildFieldReplacedKeepsFields(prev.children[c], f, v, g, w);
        }
        assert FieldsHold(s.children[c], g, w);
        assert r.children[c] == TextReplaced(s.children[c], f, v);
        TextReplacedRewritesFields(s.children[c], g, w, f, v);
        ReplaceAbsent(w, f, v);
      }
    }
  }

  /** The text pass runs after the structural pass, so a value containing its own field
      name is rewritten again: goal := "new goal" yields "new new goal". */
  lemma ValueRewrittenByTextPass()
    ensures Applied(Element("prompt", [Element("goal", [Text("old")])]), [("goal", "new goal")])
         == Element("prompt", [Element("goal", [Text("new new goal")])])
  {
    var root := Element("prompt", [Element("goal", [Text("old")])]);
    assert [("goal", "new goal")][..0] == [];
    var s := FieldReplaced(root, "goal", "new goal");
    assert s == Element("prompt", [Element("goal", [Text("new goal")])]) by {
      assert ChildFieldReplaced(root.children[0], "goal", "new goal") == Element("goal", [Text("new goal")]);
    }
    NewGoalRewritten();
    assert TextReplaced(Element("goal", [Text("new goal")]), "goal", "new goal")
        == Element("goal", [Text("new new goal")]);
  }

  lemma NewGoalRewritten()
    ensures Replace("new goal", "goal", "new goal") == "new new goal"
  {
    var t, s := "goal", "new goal";
    assert s[..4][0] != t[0];
    assert s[1..][..4][0] != t[0];
    assert s[2..][..4][0] != t[0];
    assert s[3..][..4][0] != t[0];
    assert s[4..][..4] == t;
    assert Replace(s[4..][4..], t, s) == [];
    assert Replace(s[3..], t, s) == [s[3]] + Replace(s[4..], t, s);
  }
}
