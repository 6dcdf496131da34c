/** The older `convert` command (package info.jab.pml.cli): its own pair parsing, which drops
    an unpaired trailing element, and its own structural pass, which removes only the text
    children of a matched element. It has no text-substring pass. */
module LegacyConvertCommand {
  import opened Wrappers
  import opened Dom
  import opened TemplatePairs
  import JavaStrings
  import PmlUtils

  /** `parseTemplatePairs`: an index loop `i < size - 1` stepping by two, so exactly
      `size / 2` pairs are put and an odd trailing element is never read. */
  method ParseTemplatePairs(templatePairs: Option<seq<string>>) returns (templateMap: map<string, string>)
    ensures templatePairs.None? ==> templateMap == map[]
    ensures templatePairs.Some? ==> templateMap == PairsMap(templatePairs.value, |templatePairs.value| / 2)
  {
    templateMap := map[];
    if templatePairs.None? || templatePairs.value == [] {
      return;
    }
    var pairs := templatePairs.value;
    var i := 0;
    while i < |pairs| - 1
      invariant 0 <= i <= |pairs| && i % 2 == 0
      invariant templateMap == PairsMap(pairs, i / 2)
    {
      var field := pairs[i];
      var value := pairs[i + 1];
      templateMap := templateMap[field := value];
      i := i + 2;
    }
  }

  /** An unpaired trailing field is ignored. */
  lemma TrailingElementIgnored(pairs: seq<string>, field: string)
    requires |pairs| % 2 == 0
    ensures PairsMap(pairs + [field], |pairs + [field]| / 2) == PairsMap(pairs, |pairs| / 2)
  {
    var k := |pairs| / 2;
    assert |pairs + [field]| / 2 == k;
    assert (pairs + [field])[..2 * k] == pairs[..2 * k];
    PairsMapPrefix(pairs + [field], pairs, k);
  }

  /** `children` without its text nodes; element and other nodes keep their order. */
  function WithoutText(children: seq<Node>): seq<Node>
  {
    if children == [] then []
    else (if children[0].Text? then [] else [children[0]]) + WithoutText(children[1..])
  }

  /** Exactly the non-text children survive, and nothing is added. */
  lemma {:induction false} WithoutTextMembers(children: seq<Node>)
    ensures forall x :: x in WithoutText(children) <==> x in children && !x.Text?
    ensures |WithoutText(children)| <= |children|
  {
    if children != [] {
      WithoutTextMembers(children[1..]);
      assert children == [children[0]] + children[1..];
    }
  }

  /** The removal loop: from the last index down to 0, each text child is removed. */
  method RemoveTextChildren(contentNodes: seq<Node>) returns (remaining: seq<Node>)
    ensures remaining == WithoutText(contentNodes)
  {
    remaining := contentNodes;
    var j := |remaining| - 1;
    while j >= 0
      invariant -1 <= j < |contentNodes|
      invariant remaining == contentNodes[..j + 1] + WithoutText(contentNodes[j + 1..])
    {
      WithoutTextAt(contentNodes, j);
      var kept := WithoutText(contentNodes[j + 1..]);
      assert remaining == contentNodes[..j] + [contentNodes[j]] + kept;
      if remaining[j].Text? {
        remaining := remaining[..j] + remaining[j + 1..];
        assert remaining == contentNodes[..j] + kept;
      }
      j := j - 1;
    }
  }

  lemma WithoutTextAt(children: seq<Node>, j: int)
    requires 0 <= j < |children|
    ensures WithoutText(children[j..])
         == (if children[j].Text? then [] else [children[j]]) + WithoutText(children[j + 1..])
    ensures children[..j + 1] == children[..j] + [children[j]]
  {
  }

  /** Children that are all text nodes leave nothing behind. */
  lemma {:induction false} WithoutTextAllText(children: seq<Node>)
    requires forall i :: 0 <= i < |children| ==> children[i].Text?
    ensures WithoutText(children) == []
  {
    if children != [] {
      WithoutTextAllText(children[1..]);
    }
  }

  /** The tree this variant's `replaceFieldValue(e, …)` leaves behind; as in the newer
      variant the tag of `e` is never compared. */
  function FieldReplaced(e: Node, fieldName: string, newValue: string): (r: Node)
    ensures r.Element? <==> e.Element?
    ensures e.Element? ==> r.tag == e.tag && |r.children| == |e.children|
    decreases e, 0
  {
    match e
    case Element(tag, cs) =>
      Element(tag, seq(|cs|, i requires 0 <= i < |cs| => ChildFieldReplaced(cs[i], fieldName, newValue)))
    case _ => e
  }

  /** A matched element keeps its non-text children in order and gains one trailing text
      node with the value; it is not descended into. Other elements are searched. */
  function ChildFieldReplaced(n: Node, fieldName: string, newValue: string): Node
    decreases n, 1
  {
    if n.Element? && fieldName == n.tag then Element(n.tag, WithoutText(n.children) + [Text(newValue)])
    else FieldReplaced(n, fieldName, newValue)
  }

  /** `replaceFieldValue` of this variant. */
  method ReplaceFieldValue(element: Node, fieldName: string, newValue: string) returns (r: Node)
    requires element.Element?
    ensures r == FieldReplaced(element, fieldName, newValue)
    decreases element
  {
    var children := element.children;
    for i := 0 to |children|
      invariant |children| == |element.children|
      invariant forall k :: 0 <= k < i ==> children[k] == ChildFieldReplaced(element.children[k], fieldName, newValue)
      invariant forall k :: i <= k < |children| ==> children[k] == element.children[k]
    {
      var node := children[i];
      if node.Element? {
        if fieldName == node.tag {
          var contentNodes := RemoveTextChildren(node.children);
          children := children[i := Element(node.tag, contentNodes + [Text(newValue)])];
        } else {
          assert node == element.children[i];
          var replaced := ReplaceFieldValue(node, fieldName, newValue);
          children := children[i := replaced];
        }
      }
    }
    r := Element(element.tag, children);
  }

  /** A field name that no element below `e` carries leaves the tree unchanged. */
  lemma {:induction false} FieldReplacedUnmatched(e: Node, fieldName: string, newValue: string)
    requires NoDescendantNamed(e, fieldName)
    ensures FieldReplaced(e, fieldName, newValue) == e
    decreases e, 0
  {
    match e
    case Element(tag, cs) =>
      forall i | 0 <= i < |cs| ensures ChildFieldReplaced(cs[i], fieldName, newValue) == cs[i] {
        FieldReplacedUnmatched(cs[i], fieldName, newValue);
      }
      assert FieldReplaced(e, fieldName, newValue).children == cs;
    case _ =>
  }

  /** The empty field name matches no element. */
  lemma EmptyFieldNameChangesNothing(e: Node, newValue: string)
    ensures FieldReplaced(e, "", newValue) == e
  {
    if e.Element? {
      forall i | 0 <= i < |e.children| ensures NoElementNamed(e.children[i], "") {
        NoElementNamedEmpty(e.children[i]);
      }
    }
    FieldReplacedUnmatched(e, "", newValue);
  }

  /** Dropping text nodes a second time, after a text node was appended, gives the same
      children. */
  lemma {:induction false} WithoutTextAppendText(children: seq<Node>, value: string)
    ensures WithoutText(WithoutText(children) + [Text(value)]) == WithoutText(children)
  {
    if children == [] {
      assert WithoutText([Text(value)]) == [] + WithoutText([]);
    } else {
      WithoutTextAppendText(children[1..], value);
      var rest := WithoutText(children[1..]);
      if children[0].Text? {
        assert WithoutText(children) == rest;
      } else {
        assert ([children[0]] + rest + [Text(value)])[1..] == rest + [Text(value)];
      }
    }
  }

  /** Running this variant's structural pass twice with the same entry changes nothing
      more. */
  lemma {:induction false} FieldReplacedIdempotent(e: Node, fieldName: string, newValue: string)
    ensures var r := FieldReplaced(e, fieldName, newValue);
            FieldReplaced(r, fieldName, newValue) == r
    decreases e, 0
  {
    match e
    case Element(tag, cs) =>
      var r := FieldReplaced(e, fieldName, newValue);
      forall i | 0 <= i < |cs| ensures ChildFieldReplaced(r.children[i], fieldName, newValue) == r.children[i] {
        ChildFieldReplacedIdempotent(cs[i], fieldName, newValue);
      }
      assert FieldReplaced(r, fieldName, newValue).children == r.children;
    case _ =>
  }

  lemma {:induction false} ChildFieldReplacedIdempotent(n: Node, fieldName: string, newValue: string)
    ensures var r := ChildFieldReplaced(n, fieldName, newValue);
            ChildFieldReplaced(r, fieldName, newValue) == r
    decreases n, 1
  {
    if n.Element? && fieldName == n.tag {
      WithoutTextAppendText(n.children, newValue);
    } else {
      FieldReplacedIdempotent(n, fieldName, newValue);
    }
  }

  /** Every element named by the field that the pass reaches holds only text nodes. */
  predicate MatchedTextOnly(n: Node, fieldName: string)
  {
    match n
    case Element(tag, cs) =>
      if tag == fieldName then forall i :: 0 <= i < |cs| ==> cs[i].Text?
      else forall i :: 0 <= i < |cs| ==> MatchedTextOnly(cs[i], fieldName)
    case _ => true
  }

  /** The two structural passes differ only on matched elements with non-text children:
      where those hold only text, removing the text children is removing all children. */
  lemma {:induction false} AgreesWithPmlUtilsOnTextOnlyFields(e: Node, fieldName: string, newValue: string)
    requires e.Element? && forall i :: 0 <= i < |e.children| ==> MatchedTextOnly(e.children[i], fieldName)
    ensures FieldReplaced(e, fieldName, newValue) == PmlUtils.FieldReplaced(e, fieldName, newValue)
    decreases e, 0
  {
    var cs := e.children;
    forall i | 0 <= i < |cs|
      ensures ChildFieldReplaced(cs[i], fieldName, newValue) == PmlUtils.ChildFieldReplaced(cs[i], fieldName, newValue)
    {
      var n := cs[i];
      if n.Element? && fieldName == n.tag {
        WithoutTextAllText(n.children);
      } else if n.Element? {
        AgreesWithPmlUtilsOnTextOnlyFields(n, fieldName, newValue);
      }
    }
    assert FieldReplaced(e, fieldName, newValue).children == PmlUtils.FieldReplaced(e, fieldName, newValue).children;
  }

  /** A same-named element nested in a matched one survives untouched, before the appended
      value. */
  lemma NestedFieldSurvives()
    ensures FieldReplaced(Element("prompt", [Element("goal", [Element("goal", [Text("inner")]), Text("old")])]), "goal", "v")
         == Element("prompt", [Element("goal", [Element("goal", [Text("inner")]), Text("v")])])
  {
    var inner := Element("goal", [Text("inner")]);
    assert [inner, Text("old")][1..] == [Text("old")];
    assert WithoutText([Text("old")]) == [] + WithoutText([]);
    assert WithoutText([inner, Text("old")]) == [inner];
    assert ChildFieldReplaced(Element("goal", [inner, Text("old")]), "goal", "v") == Element("goal", [inner, Text("v")]);
  }

  /** Every outermost element in the subtree rooted at `n` whose tag is `name` ends with the
      text node `value`, which is its only text child; elements inside it are not looked at. */
  predicate ValueAppended(n: Node, name: string, value: string)
  {
    match n
    case Element(tag, cs) =>
      if tag == name then
        && |cs| > 0 && cs[|cs| - 1] == Text(value)
        && forall i :: 0 <= i < |cs| - 1 ==> !cs[i].Text?
      else forall i :: 0 <= i < |cs| ==> ValueAppended(cs[i], name, value)
    case _ => true
  }

  /** After this variant's structural pass, every outermost element named by the field ends
      with the value as its only text child. */
  lemma {:induction false} ChildFieldReplacedAppendsValue(n: Node, fieldName: string, newValue: string)
    ensures ValueAppended(ChildFieldReplaced(n, fieldName, newValue), fieldName, newValue)
  {
    if n.Element? {
      var r := ChildFieldReplaced(n, fieldName, newValue);
      if n.tag == fieldName {
        WithoutTextMembers(n.children);
        var kept := WithoutText(n.children);
        assert r.children == kept + [Text(newValue)];
        forall i | 0 <= i < |r.children| - 1 ensures !r.children[i].Text? {
          assert r.children[i] == kept[i] && kept[i] in kept;
        }
      } else {
        forall i | 0 <= i < |n.children| ensures ValueAppended(r.children[i], fieldName, newValue) {
          ChildFieldReplacedAppendsValue(n.children[i], fieldName, newValue);
        }
      }
    }
  }

  /** A child that is not a text node is still not one after the pass. */
  lemma ChildFieldReplacedKeepsNonText(n: Node, fieldName: string, newValue: string)
    requires !n.Text?
    ensures !ChildFieldReplaced(n, fieldName, newValue).Text?
  {
  }

  /** The structural pass for one field leaves what it appended for another field alone. */
  lemma {:induction false} ChildFieldReplacedKeepsAppended(n: Node, fieldName: string, newValue: string,
                                                           other: string, w: string)
    requires fieldName != other && ValueAppended(n, other, w)
    ensures ValueAppended(ChildFieldReplaced(n, fieldName, newValue), other, w)
  {
    if n.Element? {
      var r := ChildFieldReplaced(n, fieldName, newValue);
      var cs := n.children;
      if n.tag == fieldName {
        WithoutTextMembers(cs);
        var kept := WithoutText(cs);
        assert r.children == kept + [Text(newValue)];
        forall i | 0 <= i < |r.children| ensures ValueAppended(r.children[i], other, w) {
          if i < |kept| {
            assert r.children[i] == kept[i] && kept[i] in kept;
            var j :| 0 <= j < |cs| && cs[j] == kept[i];
          }
        }
      } else if n.tag == other {
        assert r == FieldReplaced(n, fieldName, newValue);
        assert r.children[|cs| - 1] == ChildFieldReplaced(Text(w), fieldName, newValue);
        forall i | 0 <= i < |cs| - 1 ensures !r.children[i].Text? {
          ChildFieldReplacedKeepsNonText(cs[i], fieldName, newValue);
        }
      } else {
        assert r == FieldReplaced(n, fieldName, newValue);
        forall i | 0 <= i < |cs| ensures ValueAppended(r.children[i], other, w) {
          ChildFieldReplacedKeepsAppended(cs[i], fieldName, newValue, other, w);
        }
      }
    }
  }

  /** The parse exception of `applyTemplates`. */
  type ApplyError = PmlUtils.ApplyError

  /** The entries applied one after the other by this variant's structural pass alone. */
  function Applied(root: Node, entries: seq<(string, string)>): (r: Node)
    ensures r.Element? <==> root.Element?
  {
    if entries == [] then root
    else
      var last := entries[|entries| - 1];
      FieldReplaced(Applied(root, entries[..|entries| - 1]), last.0, last.1)
  }

  /** Entries whose field names no element below the root carries leave the tree unchanged,
      however many of them are applied. */
  lemma {:induction false} AppliedUnmatched(root: Node, entries: seq<(string, string)>)
    requires forall i :: 0 <= i < |entries| ==> NoDescendantNamed(root, entries[i].0)
    ensures Applied(root, entries) == root
  {
    if entries != [] {
      var last := entries[|entries| - 1];
      AppliedUnmatched(root, entries[..|entries| - 1]);
      FieldReplacedUnmatched(root, last.0, last.1);
    }
  }

  /** Several entries with distinct field names: afterwards every outermost element below
      the root named by an entry ends with that entry's value as its only text child. */
  lemma {:induction false} AppliedAppendsEveryValue(root: Node, entries: seq<(string, string)>)
    requires root.Element?
    requires forall i, j :: 0 <= i < j < |entries| ==> entries[i].0 != entries[j].0
    ensures forall k, c :: 0 <= k < |entries| && 0 <= c < |Applied(root, entries).children| ==>
              ValueAppended(Applied(root, entries).children[c], entries[k].0, entries[k].1)
  {
    if entries != [] {
      var n := |entries| - 1;
      var front := entries[..n];
      var (f, v) := entries[n];
      AppliedAppendsEveryValue(root, front);
      var prev := Applied(root, front);
      var r := FieldReplaced(prev, f, v);
      assert Applied(root, entries) == r;
      forall k, c | 0 <= k < |entries| && 0 <= c < |r.children|
        ensures ValueAppended(r.children[c], entries[k].0, entries[k].1)
      {
        if k < n {
          assert front[k] == entries[k];
          ChildFieldReplacedKeepsAppended(prev.children[c], f, v, entries[k].0, entries[k].1);
        } else {
          ChildFieldReplacedAppendsValue(prev.children[c], f, v);
        }
      }
    }
  }

  /** What this variant's `applyTemplates` returns: the content verbatim for an empty map,
      otherwise the parse error or the serialization of the substituted tree. */
  function Substituted(pmlContent: string, templateMap: map<string, string>, order: seq<string>,
                       parse: string -> Option<ElementNode>, serialize: Node -> string): Result<string, ApplyError>
    requires PmlUtils.IsIterationOrder(order, templateMap)
  {
    if templateMap == map[] then Ok(pmlContent)
    else match parse(pmlContent)
      case None => Err(PmlUtils.MalformedInput)
      case Some(root) => Ok(serialize(Applied(root, PmlUtils.Entries(templateMap, order))))
  }

  /** `applyTemplates` of this variant: only the structural pass runs for each entry. */
  method ApplyTemplates(pmlContent: string, templateMap: map<string, string>, order: seq<string>,
                        parse: string -> Option<ElementNode>, serialize: Node -> string)
    returns (r: Result<string, ApplyError>)
    requires PmlUtils.IsIterationOrder(order, templateMap)
    ensures r == Substituted(pmlContent, templateMap, order, parse, serialize)
    ensures templateMap == map[] ==> r == Ok(pmlContent)
  {
    if templateMap == map[] {
      return Ok(pmlContent);
    }
    var doc := parse(pmlContent);
    if doc.None? {
      return Err(PmlUtils.MalformedInput);
    }
    var root: Node := doc.value;
    var entries := PmlUtils.Entries(templateMap, order);
    for i := 0 to |entries|
      invariant root == Applied(doc.value, entries[..i])
    {
      var (fieldName, fieldValue) := entries[i];
      assert entries[..i + 1][..i] == entries[..i];
      root := ReplaceFieldValue(root, fieldName, fieldValue);
    }
    assert entries[..|entries|] == entries;
    r := Ok(serialize(root));
  }

  /** No text-substring pass: a text node that merely mentions the field name is left
      alone here, while the newer `applyTemplates` rewrites it. */
  lemma NoTextPass()
    ensures Applied(Element("prompt", [Text("goal")]), [("goal", "v")]) == Element("prompt", [Text("goal")])
    ensures PmlUtils.Applied(Element("prompt", [Text("goal")]), [("goal", "v")]) == Element("prompt", [Text("v")])
  {
    var root := Element("prompt", [Text("goal")]);
    assert [("goal", "v")][..0] == [];
    assert FieldReplaced(root, "goal", "v") == root by {
      assert ChildFieldReplaced(Text("goal"), "goal", "v") == Text("goal");
    }
    assert PmlUtils.FieldReplaced(root, "goal", "v") == root by {
      assert PmlUtils.ChildFieldReplaced(Text("goal"), "goal", "v") == Text("goal");
    }
    assert PmlUtils.TextReplaced(Text("goal"), "goal", "v") == Text("v") by {
      assert "goal"[..4] == "goal";
      assert JavaStrings.Replace("goal"[4..], "goal", "v") == [];
    }
    assert PmlUtils.TextReplaced(root, "goal", "v").children == [PmlUtils.TextReplaced(Text("goal"), "goal", "v")];
  }
}
