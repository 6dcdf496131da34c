# PML template substitution and prompt builders, in Dafny

A model of the core of the PML tool set: PML is an XML dialect describing an LLM prompt
(role, goal, constraints, steps, examples, output format, safeguards). Two parts carry its
logic.

**Template substitution.** `convert --template FIELD VALUE …` folds its flat argument list
into a map (a later pair for the same field overwrites an earlier one) and rewrites the
parsed document before it is validated and rendered. The DOM is modelled as the datatype
`Dom.Node` (`Element(tag, children) | Text(text) | Other`). For each map entry,
`PmlUtils.applyTemplates` runs two passes over one shared document:

- the structural pass `replaceFieldValue`, which walks the children of the root (the
  root's own tag is never compared) and gives every element whose tag equals the field
  name a single text child holding the value, without descending into it;
- then the text pass `replaceTextContent`, which applies Java's `String.replace` to every
  text node and skips an empty field name.

The older command in package `info.jab.pml.cli` has its own variants. Its pair parsing
drops an unpaired trailing element. Its structural pass removes only the text children of
a matched element, keeps its element children and appends the value after them. It has
no text pass. The newer command in `info.jab.pml.cli.command` rejects an odd argument
count with exit code 1, then substitutes, validates and renders, and stops at the first
failure.

Each pass is a specification function (`FieldReplaced`, `TextReplaced`, `Applied`) and
a method that does what the Java code does: an index loop over the children, a descending
removal loop, an append, a loop over the map entries. Each method is proved equal to its
function. The lemmas prove the properties about the functions.

**Prompt builders.** `PromptModel.PromptBuilder` (module `src/main`, twelve fields, checks
id, role, goal) and `TypesPromptModel.PromptBuilder` (module `types`, ten fields, checks
role, goal) are classes whose `With*` methods overwrite one field and return the same
builder. `Build` returns `Err(IllegalState(message))` for the first check that fails, or
`Ok` of a `Prompt` value holding every field. Java `null` is `None` for strings and a
null reference for the schema-generated element classes, which are shared by reference
as in the source. "Blank" is `String.isBlank`, built on the exact code-point set of
`Character.isWhitespace`.

Foreign code is passed in as function parameters: XML parsing (`parse`), serialisation
(`serialize`), XSD validation (`validate`), Markdown rendering (`convertToMarkdown`) and
the iteration order of a `HashMap` (`order` / `iterationOrder`, any sequence listing
each key once).

Three facts about the code that the model keeps:
- The text pass runs on the tree the structural pass already rewrote, so a value that
  contains its own field name is rewritten again: every matched element ends up holding
  `value.replace(field, value)` (`PmlUtils.SingleEntryRewritesEveryField`).
- `build()` throws `IllegalStateException` with a fixed message per field.
- The built prompt shares the element objects (goal, metadata, …) with the caller. It
  does not copy them.

Files: `wrappers.dfy` (Option, Result), `dom.dfy` (the tree), `java_strings.dfy`
(`contains`, `replace`, `isBlank`), `template_pairs.dfy` (folding pairs into a map),
`pml_utils.dfy`, `legacy_convert_command.dfy`, `convert_command.dfy`, `pml_types.dfy`
(shared element classes, messages), `prompt_builder.dfy`, `types_prompt_builder.dfy`.

## Model

| member | source | states |
|---|---|---|
| JavaStrings.Contains | cli/src/main/java/info/jab/pml/cli/xml/PmlUtils.java:209 | definition of `String.contains`: the pattern occurs at some index; the empty pattern occurs in every string |
| JavaStrings.EmptyContained | cli/src/main/java/info/jab/pml/cli/xml/PmlUtils.java:202-209 | the empty pattern is contained in every string, so a value never excludes the empty field name by not containing it |
| JavaStrings.Replace | cli/src/main/java/info/jab/pml/cli/xml/PmlUtils.java:210 | definition of `String.replace` with a non-empty target: scanning left to right, each occurrence that does not overlap an earlier rewritten one is replaced |
| JavaStrings.IsBlank | src/main/java/info/jab/pml/model/PromptBuilder.java:98-101 | definition of `String.isBlank`: every character satisfies `IsWhitespace`, which is exactly the code-point set of `Character.isWhitespace`; the types builder uses the same test (types/src/main/java/info/jab/pml/model/PromptBuilder.java:86) |
| JavaStrings.ReplaceAbsent | cli/src/main/java/info/jab/pml/cli/xml/PmlUtils.java:207-211 | replacing a target that does not occur returns the text unchanged, so the `contains` guard before `replace` changes no result |
| JavaStrings.ReplaceBySelf | cli/src/main/java/info/jab/pml/cli/xml/PmlUtils.java:210 | replacing a target by itself leaves the text unchanged |
| JavaStrings.ReplaceLength | cli/src/main/java/info/jab/pml/cli/xml/PmlUtils.java:210 | the result's length is the input's plus, per rewritten occurrence, the replacement's length minus the target's |
| JavaStrings.ReplaceFindsOccurrence | cli/src/main/java/info/jab/pml/cli/xml/PmlUtils.java:209-210 | when the target occurs anywhere in the text, the left-to-right scan rewrites at least one occurrence |
| JavaStrings.ReplacePresentChangesLength | cli/src/main/java/info/jab/pml/cli/xml/PmlUtils.java:209-210 | a target that occurs is really replaced: with a replacement of another length the text's length changes |
| JavaStrings.BlankExamples | src/test/java/info/jab/pml/model/PromptBuilderTest.java:91-129 | "", " ", "\\t" and "   " are blank; "assistant" and "prompt-001" are not |
| TemplatePairs.PairsMap | cli/src/main/java/info/jab/pml/cli/command/ConvertCommand.java:103-107 | definition of the `put` loop: the map after putting pairs 0 .. k-1 in order into an empty map; the older command's loop (cli/src/main/java/info/jab/pml/cli/ConvertCommand.java:93-97) is the same fold |
| TemplatePairs.PairsMapKeys | cli/src/main/java/info/jab/pml/cli/command/ConvertCommand.java:103-107 | the folded map's keys are exactly the even-indexed elements (the fields) |
| TemplatePairs.PairsMapSize | cli/src/main/java/info/jab/pml/cli/command/ConvertCommand.java:103-107 | the folded map has at most one entry per pair |
| TemplatePairs.PairsMapLastWins | cli/src/main/java/info/jab/pml/cli/command/ConvertCommand.java:106 | a field maps to the value of its last pair (later puts overwrite earlier ones) |
| TemplatePairs.PairsMapFromLastPair | cli/src/main/java/info/jab/pml/cli/ConvertCommand.java:93-97 | every entry's value comes from a pair with that field that no later pair repeats |
| TemplatePairs.PairsMapPrefix | cli/src/main/java/info/jab/pml/cli/ConvertCommand.java:93-97 | the map depends only on the pairs read; elements after them are never looked at |
| TemplatePairs.DuplicateFieldKeepsLastValue | cli/src/test/java/info/jab/pml/cli/ConvertCommandTest.java:459-481 | goal A then goal B yields the map {goal: B} |
| PmlUtils.FieldReplaced | cli/src/main/java/info/jab/pml/cli/xml/PmlUtils.java:172-182 | the structural pass keeps the node's kind, and for an element its tag and child count: the root's own tag is never compared |
| PmlUtils.ReplaceFieldValue | cli/src/main/java/info/jab/pml/cli/xml/PmlUtils.java:172-199 | the index loop over the children, with removal of a matched element's children and append of the value, yields exactly `FieldReplaced` |
| PmlUtils.RemoveAllChildren | cli/src/main/java/info/jab/pml/cli/xml/PmlUtils.java:184-189 | removing children from the last index down to 0 leaves none |
| PmlUtils.FieldReplacedSetsEveryField | cli/src/main/java/info/jab/pml/cli/xml/PmlUtils.java:182-195 | after the pass, every element below the root whose tag is the field name has exactly one child, the text node with the value |
| PmlUtils.FieldReplacedUnmatched | cli/src/main/java/info/jab/pml/cli/xml/PmlUtils.java:173-198 | a field name that no element below the root carries leaves the tree unchanged, with no error |
| PmlUtils.EmptyFieldNameChangesNothing | cli/src/main/java/info/jab/pml/cli/xml/PmlUtils.java:182 | the empty field name matches no element and changes nothing |
| PmlUtils.FieldReplacedIdempotent | cli/src/main/java/info/jab/pml/cli/xml/PmlUtils.java:182-195 | running the structural pass again with the same entry changes nothing |
| PmlUtils.RootIsNotReplaced | cli/src/main/java/info/jab/pml/cli/xml/PmlUtils.java:116-122 | a root whose own tag is the field name keeps its content |
| PmlUtils.NestedFieldDisappears | cli/src/main/java/info/jab/pml/cli/xml/PmlUtils.java:182-195 | a same-named element inside a matched one disappears and is not replaced separately |
| PmlUtils.TextReplaced | cli/src/main/java/info/jab/pml/cli/xml/PmlUtils.java:201-219 | the text pass keeps the tree's shape (kinds, tags, child counts) and changes only text strings |
| PmlUtils.ReplaceTextContent | cli/src/main/java/info/jab/pml/cli/xml/PmlUtils.java:201-219 | the recursive pass with its `contains` guard yields exactly `TextReplaced`, and is the identity for an empty pattern |
| PmlUtils.TextReplacedAbsent | cli/src/main/java/info/jab/pml/cli/xml/PmlUtils.java:207-211 | a pattern that occurs in no text node leaves the tree unchanged |
| PmlUtils.ChildFieldReplacedKeepsFields | cli/src/main/java/info/jab/pml/cli/xml/PmlUtils.java:182-195 | the structural pass for one field keeps every value already set for a different field |
| PmlUtils.TextReplacedRewritesFields | cli/src/main/java/info/jab/pml/cli/xml/PmlUtils.java:201-219 | the text pass with a non-empty pattern turns each field value w into w.replace(pattern, replacement), and keeps every field's single text child |
| PmlUtils.TextReplacedKeepsFields | cli/src/main/java/info/jab/pml/cli/xml/PmlUtils.java:117-126 | the text pass keeps the fields set by the structural pass when the value does not contain the field name |
| PmlUtils.Applied | cli/src/main/java/info/jab/pml/cli/xml/PmlUtils.java:116-126 | applying the entries in order keeps the root element and its tag |
| PmlUtils.ApplyTemplates | cli/src/main/java/info/jab/pml/cli/xml/PmlUtils.java:104-134 | a null or empty map returns the content verbatim without parsing; otherwise a parse failure is an error and success serialises the tree after both passes for every entry in iteration order |
| PmlUtils.AppliedUnmatched | cli/src/main/java/info/jab/pml/cli/xml/PmlUtils.java:117-126 | entries whose names match no element below the root and, unless empty, occur in no text leave the document unchanged, with no error (the empty name is skipped by the text pass at line 203) |
| PmlUtils.SingleEntryRewritesEveryField | cli/src/main/java/info/jab/pml/cli/xml/PmlUtils.java:117-126 | with one entry and a non-empty field name, every element below the root named by it holds exactly value.replace(field, value): the text pass rewrites the value the structural pass wrote |
| PmlUtils.SingleEntrySetsEveryField | cli/src/main/java/info/jab/pml/cli/xml/PmlUtils.java:117-126 | with one entry whose value does not contain its name, every element below the root named by it holds exactly the value afterwards |
| PmlUtils.ValueRewrittenByTextPass | cli/src/main/java/info/jab/pml/cli/xml/PmlUtils.java:121-125 | an instance of the rewritten-again law: goal := "new goal" yields "new new goal" |
| PmlUtils.AppliedSetsEveryField | cli/src/main/java/info/jab/pml/cli/xml/PmlUtils.java:117-126 | several entries with distinct names, where no value contains any entry's name: every element below the root named by an entry holds exactly that entry's value |
| LegacyConvertCommand.ParseTemplatePairs | cli/src/main/java/info/jab/pml/cli/ConvertCommand.java:86-100 | a null or empty list gives an empty map; otherwise the loop bounded by size - 1 puts exactly size / 2 pairs |
| LegacyConvertCommand.TrailingElementIgnored | cli/src/main/java/info/jab/pml/cli/ConvertCommand.java:93-97 | an unpaired trailing element does not change the map |
| LegacyConvertCommand.WithoutTextMembers | cli/src/main/java/info/jab/pml/cli/ConvertCommand.java:141-148 | removing text children keeps exactly the non-text children and adds nothing |
| LegacyConvertCommand.RemoveTextChildren | cli/src/main/java/info/jab/pml/cli/ConvertCommand.java:141-148 | the descending loop removing text children yields the children without their text nodes, in order |
| LegacyConvertCommand.FieldReplaced | cli/src/main/java/info/jab/pml/cli/ConvertCommand.java:129-139 | this structural pass keeps the node's kind, and for an element its tag and child count: the root is never compared |
| LegacyConvertCommand.ReplaceFieldValue | cli/src/main/java/info/jab/pml/cli/ConvertCommand.java:129-158 | the loop yields exactly `FieldReplaced`: a matched element keeps its non-text children in order and gains one trailing text node with the value; others are searched |
| LegacyConvertCommand.FieldReplacedUnmatched | cli/src/main/java/info/jab/pml/cli/ConvertCommand.java:129-158 | an unknown field name leaves the tree unchanged, with no error |
| LegacyConvertCommand.EmptyFieldNameChangesNothing | cli/src/test/java/info/jab/pml/cli/ConvertCommandTest.java:391-410 | the empty field name leaves the tree unchanged |
| LegacyConvertCommand.FieldReplacedIdempotent | cli/src/main/java/info/jab/pml/cli/ConvertCommand.java:139-154 | running this pass again with the same entry changes nothing |
| LegacyConvertCommand.AgreesWithPmlUtilsOnTextOnlyFields | cli/src/main/java/info/jab/pml/cli/ConvertCommand.java:139-150 | where the matched elements hold only text, this pass and the newer one give the same tree |
| LegacyConvertCommand.NestedFieldSurvives | cli/src/main/java/info/jab/pml/cli/ConvertCommand.java:139-154 | a same-named element nested in a matched one survives untouched, before the appended value |
| LegacyConvertCommand.Applied | cli/src/main/java/info/jab/pml/cli/ConvertCommand.java:114-119 | applying the entries keeps the root an element |
| LegacyConvertCommand.ChildFieldReplacedAppendsValue | cli/src/main/java/info/jab/pml/cli/ConvertCommand.java:139-150 | after this variant's pass, every outermost element named by the field ends with the value, its only text child |
| LegacyConvertCommand.ChildFieldReplacedKeepsAppended | cli/src/main/java/info/jab/pml/cli/ConvertCommand.java:139-154 | this variant's pass for one field keeps what was appended for a different field |
| LegacyConvertCommand.AppliedAppendsEveryValue | cli/src/test/java/info/jab/pml/cli/ConvertCommandTest.java:188-213 | several entries with distinct names: every outermost element below the root named by an entry ends with that entry's value as its only text child |
| LegacyConvertCommand.AppliedUnmatched | cli/src/test/java/info/jab/pml/cli/ConvertCommandTest.java:347-368 | any number of entries whose field names no element below the root carries leave the tree unchanged, with no error |
| LegacyConvertCommand.ApplyTemplates | cli/src/main/java/info/jab/pml/cli/ConvertCommand.java:102-127 | an empty map returns the content unchanged; otherwise only the structural pass runs for each entry |
| LegacyConvertCommand.NoTextPass | cli/src/main/java/info/jab/pml/cli/ConvertCommand.java:115-119 | a text node that mentions the field name is left alone here, while the newer `applyTemplates` rewrites it |
| ConvertCommand.ParseTemplatePairs | cli/src/main/java/info/jab/pml/cli/command/ConvertCommand.java:91-110 | a null or empty list gives an empty map; an odd count gives null; otherwise every pair is put in order |
| ConvertCommand.EvenPairsMap | cli/src/main/java/info/jab/pml/cli/command/ConvertCommand.java:103-107 | for an even list the keys are exactly the even-indexed elements, at most size / 2 of them, each with its last value |
| ConvertCommand.Call | cli/src/main/java/info/jab/pml/cli/command/ConvertCommand.java:59-88 | exit 0 exactly when the pairs are even, substitution succeeds, the result validates and rendering succeeds; otherwise exit 1 with no output, so an odd count or failed validation never renders |
| ConvertCommand.DuplicateFieldScenario | cli/src/main/java/info/jab/pml/cli/command/ConvertCommand.java:62-70 | goal A then goal B maps goal to B, and after substitution every goal element below the root holds exactly B |
| PmlTypes.MessagesNameTheirField | src/main/java/info/jab/pml/model/PromptBuilder.java:98-106 | the three exception messages contain "id", "role" and "goal" |
| PromptModel.PromptBuilder.Create | src/main/java/info/jab/pml/model/PromptBuilder.java:23-27 | a new builder has every field unset |
| PromptModel.PromptBuilder.WithMetadata | src/main/java/info/jab/pml/model/PromptBuilder.java:29-32 | overwrites only metadata and returns the same builder |
| PromptModel.PromptBuilder.WithRole | src/main/java/info/jab/pml/model/PromptBuilder.java:34-37 | overwrites only role and returns the same builder |
| PromptModel.PromptBuilder.WithTone | src/main/java/info/jab/pml/model/PromptBuilder.java:39-42 | overwrites only tone and returns the same builder |
| PromptModel.PromptBuilder.WithContext | src/main/java/info/jab/pml/model/PromptBuilder.java:44-47 | overwrites only context and returns the same builder |
| PromptModel.PromptBuilder.WithGoal | src/main/java/info/jab/pml/model/PromptBuilder.java:49-52 | overwrites only goal and returns the same builder |
| PromptModel.PromptBuilder.WithConstraints | src/main/java/info/jab/pml/model/PromptBuilder.java:54-57 | overwrites only constraints and returns the same builder |
| PromptModel.PromptBuilder.WithInstructions | src/main/java/info/jab/pml/model/PromptBuilder.java:59-62 | overwrites only instructions and returns the same builder |
| PromptModel.PromptBuilder.WithExamples | src/main/java/info/jab/pml/model/PromptBuilder.java:64-67 | overwrites only examples and returns the same builder |
| PromptModel.PromptBuilder.WithOutputFormat | src/main/java/info/jab/pml/model/PromptBuilder.java:69-72 | overwrites only outputFormat and returns the same builder |
| PromptModel.PromptBuilder.WithSafeguards | src/main/java/info/jab/pml/model/PromptBuilder.java:74-77 | overwrites only safeguards and returns the same builder |
| PromptModel.PromptBuilder.WithId | src/main/java/info/jab/pml/model/PromptBuilder.java:79-82 | overwrites only id and returns the same builder |
| PromptModel.PromptBuilder.WithVersion | src/main/java/info/jab/pml/model/PromptBuilder.java:84-87 | overwrites only version and returns the same builder |
| PromptModel.PromptBuilder.Build | src/main/java/info/jab/pml/model/PromptBuilder.java:97-122 | succeeds exactly when id and role are neither null nor blank and goal is not null, and then copies all twelve fields; otherwise fails on the first bad field in the order id, role, goal |
| PromptModel.BuildMinimal | src/test/java/info/jab/pml/model/PromptBuilderTest.java:15-42 | with only id, role and goal set, the prompt has them (the goal the same object) and every other field absent |
| PromptModel.BuildWithBadId | src/test/java/info/jab/pml/model/PromptBuilderTest.java:91-109 | a null, empty or blank id fails with a message containing "id", whatever role and goal are |
| PromptModel.BuildWithBadRole | types/src/test/java/info/jab/pml/model/PromptBuilderValidationMatrixTest.java:11-32 | with a valid id, a null, empty or blank role fails with a message containing "role" |
| PromptModel.BuildWithoutGoal | src/test/java/info/jab/pml/model/PromptBuilderTest.java:78-89 | with valid id and role, an unset goal fails with a message containing "goal" |
| PromptModel.BuildAllFields | src/main/java/info/jab/pml/model/PromptBuilder.java:108-121 | every field set through the chain reaches the prompt unchanged |
| PromptModel.AllFieldsWithoutIdRejected | types/src/test/java/info/jab/pml/model/PromptBuilderAllFieldsTest.java:21-32 | the all-fields chain without an id is rejected with the id message |
| PromptModel.LastWriteWins | src/main/java/info/jab/pml/model/PromptBuilder.java:34-37 | setting role twice keeps the second value, together with the id and the same goal object (the built prompt is a value, so later changes to the builder cannot reach it) |
| PromptModel.BuildWithEmptyGoal | src/main/java/info/jab/pml/model/PromptBuilder.java:104-106 | a goal with no content is accepted: only a null goal is rejected |
| TypesPromptModel.PromptBuilder.Create | types/src/main/java/info/jab/pml/model/PromptBuilder.java:21-25 | a new builder has every field unset |
| TypesPromptModel.PromptBuilder.WithMetadata | types/src/main/java/info/jab/pml/model/PromptBuilder.java:27-30 | overwrites only metadata and returns the same builder |
| TypesPromptModel.PromptBuilder.WithRole | types/src/main/java/info/jab/pml/model/PromptBuilder.java:32-35 | overwrites only role and returns the same builder |
| TypesPromptModel.PromptBuilder.WithTone | types/src/main/java/info/jab/pml/model/PromptBuilder.java:37-40 | overwrites only tone and returns the same builder |
| TypesPromptModel.PromptBuilder.WithContext | types/src/main/java/info/jab/pml/model/PromptBuilder.java:42-45 | overwrites only context and returns the same builder |
| TypesPromptModel.PromptBuilder.WithGoal | types/src/main/java/info/jab/pml/model/PromptBuilder.java:47-50 | overwrites only goal and returns the same builder |
| TypesPromptModel.PromptBuilder.WithConstraints | types/src/main/java/info/jab/pml/model/PromptBuilder.java:52-55 | overwrites only constraints and returns the same builder |
| TypesPromptModel.PromptBuilder.WithSteps | types/src/main/java/info/jab/pml/model/PromptBuilder.java:57-60 | overwrites only steps and returns the same builder |
| TypesPromptModel.PromptBuilder.WithExamples | types/src/main/java/info/jab/pml/model/PromptBuilder.java:62-65 | overwrites only examples and returns the same builder |
| TypesPromptModel.PromptBuilder.WithOutputFormat | types/src/main/java/info/jab/pml/model/PromptBuilder.java:67-70 | overwrites only outputFormat and returns the same builder |
| TypesPromptModel.PromptBuilder.WithSafeguards | types/src/main/java/info/jab/pml/model/PromptBuilder.java:72-75 | overwrites only safeguards and returns the same builder |
| TypesPromptModel.PromptBuilder.Build | types/src/main/java/info/jab/pml/model/PromptBuilder.java:85-105 | succeeds exactly when role is neither null nor blank and goal is not null, with no id check, and then copies all ten fields; otherwise fails on role first, then goal |
| TypesPromptModel.BuildMinimal | types/src/test/java/info/jab/pml/model/PromptBuilderTest.java:15-39 | with only role and goal set, every other field of the prompt is absent |
| TypesPromptModel.BuildWithBadRole | types/src/test/java/info/jab/pml/model/PromptBuilderTest.java:69-86 | a null, empty or blank role fails with a message containing "role" |
| TypesPromptModel.BuildWithoutGoal | types/src/test/java/info/jab/pml/model/PromptBuilderTest.java:57-67 | with a valid role, an unset goal fails with a message containing "goal" |
| TypesPromptModel.BuildAllFields | types/src/main/java/info/jab/pml/model/PromptBuilder.java:93-104 | every field set through the chain reaches the prompt unchanged |
| TypesPromptModel.LastWriteWins | types/src/main/java/info/jab/pml/model/PromptBuilder.java:32-35 | setting role twice keeps the second value |

## Left out

- XML parsing and serialisation (`DocumentBuilder`, `Transformer`) are the parameters `parse` and `serialize`. No text round trip is modelled, and a serialisation failure is not modelled.
- XSD validation (`PmlUtils.validate` and both `ValidateCommand` classes) is the predicate parameter `validate`. The schema and the missing-schema branch are not modelled.
- Markdown rendering (`PmlUtils.convertToMarkdown`) is the parameter `convertToMarkdown`. Its stylesheet, its missing-resource branch and any output written before a failure are not modelled.
- The older command's `call` is not modelled: it is file checks, reading the file and the XSLT run. The substitution it performs is modelled.
- The newer command's `call` is modelled from the point where the file has been read. The file-existence check, `Files.readString` and the messages on standard error are CLI plumbing.
- ConvertCommand.Call: "rendering is never attempted after a failed validation" is stated as exit code 1 with no output, because a pure renderer parameter cannot observe whether it was called.
- `HashMap` iteration order is an arbitrary sequence listing each key once. No claim is made that the result is independent of that order.
- The DOM is a value, not a graph of shared mutable nodes. The passes return the rewritten tree instead of editing it in place. Live `NodeList` behaviour and node identity are not modelled. No loop changes the child list it iterates over, except the removal loops, which run from the last index down, so live `NodeList` behaviour changes nothing.
- Strings are sequences of Unicode code points, not UTF-16 code units. Surrogate pairs are not modelled.
- The tree has no attributes, namespaces, prolog or nodes outside the root element. `serialize` receives only the root element, while the Java `Transformer` writes the whole document, the root's `id` attribute included. No proved property depends on them.
- The schema-generated classes (`Goal`, `Metadata`, `Constraints`, `Instructions`, `Steps`, `Examples`, `OutputFormat`, `Safeguards`, `Prompt`) are not part of this model beyond their identity and a goal's lines. `Prompt` is a value here.

## Findings

| source | as written | input that shows it | evidently intended | confidence | as-written member | corrected member |
|---|---|---|---|---|---|---|
| types/src/test/java/info/jab/pml/model/PromptBuilderAllFieldsTest.java:21-32 | the test calls `withInstructions`, which only the src/main builder has, and never calls `withId`, which that builder's `build()` requires | the test's own chain: role "assistant", a goal, every optional field, no id | the chain sets an id (or uses the types builder with `withSteps`), so the build succeeds and copies every field | not executed; high that the test as written cannot pass against either builder | PromptModel.AllFieldsWithoutIdRejected | PromptModel.BuildAllFields |
