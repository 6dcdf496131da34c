/** The `convert` command (package info.jab.pml.cli.command): pair parsing that rejects an
    odd argument count, then substitute, validate and render, each failure ending the
    command with exit code 1. */
module ConvertCommand {
  import opened Wrappers
  import opened Dom
  import opened JavaStrings
  import opened TemplatePairs
  import PmlUtils

  /** The map `parseTemplatePairs` returns: empty for a null or empty list, null (`None`) for
      an odd count, otherwise every pair put in order. */
  function TemplateMap(templatePairs: Option<seq<string>>): Option<map<string, string>>
  {
    if templatePairs.None? || templatePairs.value == [] then Some(map[])
    else if |templatePairs.value| % 2 != 0 then None
    else Some(PairsMap(templatePairs.value, |templatePairs.value| / 2))
  }

  /** `parseTemplatePairs`: rejects an odd count, then an index loop stepping by two puts
      each pair. */
  method ParseTemplatePairs(templatePairs: Option<seq<string>>) returns (templateMap: Option<map<string, string>>)
    ensures templateMap == TemplateMap(templatePairs)
    ensures templateMap.None? <==> templatePairs.Some? && |templatePairs.value| % 2 != 0
    ensures templatePairs.None? ==> templateMap == Some(map[])
  {
    if templatePairs.None? || templatePairs.value == [] {
      return Some(map[]);
    }
    var pairs := templatePairs.value;
    if |pairs| % 2 != 0 {
      return None;
    }
    var m := map[];
    var i := 0;
    while i < |pairs|
      invariant 0 <= i <= |pairs| && i % 2 == 0
      invariant m == PairsMap(pairs, i / 2)
    {
      var field := pairs[i];
      var value := pairs[i + 1];
      m := m[field := value];
      i := i + 2;
    }
    templateMap := Some(m);
  }

  /** For an even list the keys are exactly the even-indexed elements, at most one per
      pair, and each maps to the value of its last pair. */
  lemma EvenPairsMap(pairs: seq<string>, j: nat)
    requires |pairs| % 2 == 0 && pairs != [] && j < |pairs| / 2
    requires forall j' :: j < j' < |pairs| / 2 ==> pairs[2 * j'] != pairs[2 * j]
    ensures TemplateMap(Some(pairs)).Some?
    ensures TemplateMap(Some(pairs)).value.Keys == set i | 0 <= i < |pairs| / 2 :: pairs[2 * i]
    ensures |TemplateMap(Some(pairs)).value| <= |pairs| / 2
    ensures TemplateMap(Some(pairs)).value[pairs[2 * j]] == pairs[2 * j + 1]
  {
    PairsMapKeys(pairs, |pairs| / 2);
    PairsMapSize(pairs, |pairs| / 2);
    PairsMapLastWins(pairs, |pairs| / 2, j);
  }

  /** The text that is validated and rendered: absent when the pair count is odd, otherwise
      what `applyTemplates` returns for the parsed map in its iteration order. */
  function Processed(pmlContent: string, templatePairs: Option<seq<string>>,
                     iterationOrder: map<string, string> -> seq<string>,
                     parse: string -> Option<ElementNode>, serialize: Node -> string): Option<Result<string, PmlUtils.ApplyError>>
    requires forall m :: PmlUtils.IsIterationOrder(iterationOrder(m), m)
  {
    match TemplateMap(templatePairs)
    case None => None
    case Some(m) => Some(PmlUtils.Substituted(pmlContent, Some(m), iterationOrder(m), parse, serialize))
  }

  /** `call` from the point where the file has been read: parse the pairs, substitute,
      validate, render, returning the exit code and what the renderer wrote. */
  method Call(pmlContent: string, templatePairs: Option<seq<string>>,
              iterationOrder: map<string, string> -> seq<string>,
              parse: string -> Option<ElementNode>, serialize: Node -> string,
              validate: string -> bool, convertToMarkdown: string -> Option<string>)
    returns (exitCode: int, markdown: Option<string>)
    requires forall m :: PmlUtils.IsIterationOrder(iterationOrder(m), m)
    ensures var p := Processed(pmlContent, templatePairs, iterationOrder, parse, serialize);
            && (exitCode == 0 <==> p.Some? && p.value.Ok? && validate(p.value.value) && convertToMarkdown(p.value.value).Some?)
            && (exitCode == 0 ==> markdown == convertToMarkdown(p.value.value))
            && (exitCode != 0 ==> exitCode == 1 && markdown == None)
    ensures templatePairs.Some? && |templatePairs.value| % 2 != 0 ==> exitCode == 1
  {
    var templateMap := ParseTemplatePairs(templatePairs);
    if templateMap.None? {
      return 1, None;
    }
    var processedPml := PmlUtils.ApplyTemplates(pmlContent, templateMap, iterationOrder(templateMap.value), parse, serialize);
    if processedPml.Err? {
      return 1, None;
    }
    if !validate(processedPml.value) {
      return 1, None;
    }
    var output := convertToMarkdown(processedPml.value);
    if output.Some? {
      return 0, output;
    } else {
      return 1, None;
    }
  }

  /** `--template goal A --template goal B`: the map holds goal := B only, and after
      substitution every goal element below the root holds exactly "B". */
  lemma DuplicateFieldScenario(root: Node)
    requires root.Element?
    ensures TemplateMap(Some(["goal", "A", "goal", "B"])) == Some(map["goal" := "B"])
    ensures var r := PmlUtils.Applied(root, PmlUtils.Entries(map["goal" := "B"], ["goal"]));
            forall i :: 0 <= i < |r.children| ==> FieldsHold(r.children[i], "goal", "B")
  {
    DuplicateFieldKeepsLastValue();
    var entries := PmlUtils.Entries(map["goal" := "B"], ["goal"]);
    assert entries == [("goal", "B")];
    assert !Contains("B", "goal");
    PmlUtils.SingleEntrySetsEveryField(root, "goal", "B");
  }
}
