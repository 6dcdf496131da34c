/** The fluent `PromptBuilder` of the model module (src/main): twelve fields set by
    `with*` methods, and a `build()` that checks id, role and goal in that order. */
module PromptModel {
  import opened Wrappers
  import opened JavaStrings
  import opened PmlTypes

  /** A built `Prompt`: the twelve fields, `null` / `None` where never set. */
  datatype Prompt = Prompt(
    metadata: Metadata?,
    role: Option<string>,
    tone: Option<string>,
    context: Option<string>,
    goal: Goal?,
    constraints: Constraints?,
    instructions: Instructions?,
    examples: Examples?,
    outputFormat: OutputFormat?,
    safeguards: Safeguards?,
    id: Option<string>,
    version: Option<string>)

  /** Every field unset. */
  const Unset := Prompt(null, None, None, None, null, null, null, null, null, null, None, None)

  class PromptBuilder {
    var metadata: Metadata?
    var role: Option<string>
    var tone: Option<string>
    var context: Option<string>
    var goal: Goal?
    var constraints: Constraints?
    var instructions: Instructions?
    var examples: Examples?
    var outputFormat: OutputFormat?
    var safeguards: Safeguards?
    var id: Option<string>
    var version: Option<string>

    /** The builder's current fields, as the prompt they would make. */
    function Fields(): Prompt
      reads this
    {
      Prompt(metadata, role, tone, context, goal, constraints, instructions, examples,
             outputFormat, safeguards, id, version)
    }

    /** `create()`: a builder with no field set. */
    constructor Create()
      ensures Fields() == Unset
    {
      metadata, role, tone, context, goal := null, None, None, None, null;
      constraints, instructions, examples, outputFormat, safeguards := null, null, null, null, null;
      id, version := None, None;
    }

    method WithMetadata(metadata: Metadata?) returns (self: PromptBuilder)
      modifies this
      ensures self == this && Fields() == old(Fields()).(metadata := metadata)
    {
      this.metadata := metadata;
      self := this;
    }

    method WithRole(role: Option<string>) returns (self: PromptBuilder)
      modifies this
      ensures self == this && Fields() == old(Fields()).(role := role)
    {
      this.role := role;
      self := this;
    }

    method WithTone(tone: Option<string>) returns (self: PromptBuilder)
      modifies this
      ensures self == this && Fields() == old(Fields()).(tone := tone)
    {
      this.tone := tone;
      self := this;
    }

    method WithContext(context: Option<string>) returns (self: PromptBuilder)
      modifies this
      ensures self == this && Fields() == old(Fields()).(context := context)
    {
      this.context := context;
      self := this;
    }

    method WithGoal(goal: Goal?) returns (self: PromptBuilder)
      modifies this
      ensures self == this && Fields() == old(Fields()).(goal := goal)
    {
      this.goal := goal;
      self := this;
    }

    method WithConstraints(constraints: Constraints?) returns (self: PromptBuilder)
      modifies this
      ensures self == this && Fields() == old(Fields()).(constraints := constraints)
    {
      this.constraints := constraints;
      self := this;
    }

    method WithInstructions(instructions: Instructions?) returns (self: PromptBuilder)
      modifies this
      ensures self == this && Fields() == old(Fields()).(instructions := instructions)
    {
      this.instructions := instructions;
      self := this;
    }

    method WithExamples(examples: Examples?) returns (self: PromptBuilder)
      modifies this
      ensures self == this && Fields() == old(Fields()).(examples := examples)
    {
      this.examples := examples;
      self := this;
    }

    method WithOutputFormat(outputFormat: OutputFormat?) returns (self: PromptBuilder)
      modifies this
      ensures self == this && Fields() == old(Fields()).(outputFormat := outputFormat)
    {
      this.outputFormat := outputFormat;
      self := this;
    }

    method WithSafeguards(safeguards: Safeguards?) returns (self: PromptBuilder)
      modifies this
      ensures self == this && Fields() == old(Fields()).(safeguards := safeguards)
    {
      this.safeguards := safeguards;
      self := this;
    }

    method WithId(id: Option<string>) returns (self: PromptBuilder)
      modifies this
      ensures self == this && Fields() == old(Fields()).(id := id)
    {
      this.id := id;
      self := this;
    }

    method WithVersion(version: Option<string>) returns (self: PromptBuilder)
      modifies this
      ensures self == this && Fields() == old(Fields()).(version := version)
    {
      this.version := version;
      self := this;
    }

    /** `build()`: succeeds exactly when id and role are given and goal is not null, and
        then copies every field; otherwise fails on the first of id, role, goal that is
        missing. A goal is accepted whatever its content. */
    method Build() returns (r: Result<Prompt, BuildError>)
      ensures r.Ok? <==> Given(id) && Given(role) && goal != null
      ensures r.Ok? ==> r.value == Fields()
      ensures !Given(id) ==> r == Err(IllegalState(IdMissing))
      ensures Given(id) && !Given(role) ==> r == Err(IllegalState(RoleMissing))
      ensures Given(id) && Given(role) && goal == null ==> r == Err(IllegalState(GoalMissing))
    {
      if id.None? || IsBlank(id.value) {
        return Err(IllegalState(IdMissing));
      }
      if role.None? || IsBlank(role.value) {
        return Err(IllegalState(RoleMissing));
      }
      if goal == null {
        return Err(IllegalState(GoalMissing));
      }
      var prompt := Unset;
      prompt := prompt.(metadata := metadata);
      prompt := prompt.(role := role);
      prompt := prompt.(tone := tone);
      prompt := prompt.(context := context);
      prompt := prompt.(goal := goal);
      prompt := prompt.(constraints := constraints);
      prompt := prompt.(instructions := instructions);
      prompt := prompt.(examples := examples);
      prompt := prompt.(outputFormat := outputFormat);
      prompt := prompt.(safeguards := safeguards);
      prompt := prompt.(id := id);
      prompt := prompt.(version := version);
      r := Ok(prompt);
    }
  }

  /** The minimal prompt: id, role and goal set through the fluent chain, every other
      field absent in the result, the goal the very object passed in. */
  method BuildMinimal(id: string, role: string, goal: Goal) returns (p: Prompt)
    requires !IsBlank(id) && !IsBlank(role)
    ensures p == Unset.(id := Some(id), role := Some(role), goal := goal)
  {
    var builder := new PromptBuilder.Create();
    builder := builder.WithId(Some(id));
    builder := builder.WithRole(Some(role));
    builder := builder.WithGoal(goal);
    var r := builder.Build();
    p := r.value;
  }

  /** Missing, empty or blank ids are rejected with the id message before role and goal
      are looked at. */
  method BuildWithBadId(badId: Option<string>, role: Option<string>, goal: Goal?) returns (r: Result<Prompt, BuildError>)
    requires !Given(badId)
    ensures r.Err? && Contains(r.error.message, "id")
  {
    var builder := new PromptBuilder.Create();
    builder := builder.WithId(badId);
    builder := builder.WithRole(role);
    builder := builder.WithGoal(goal);
    r := builder.Build();
    MessagesNameTheirField();
  }

  /** With a valid id, missing, empty or blank roles are rejected with the role
      message. */
  method BuildWithBadRole(id: string, badRole: Option<string>, goal: Goal?) returns (r: Result<Prompt, BuildError>)
    requires !IsBlank(id) && !Given(badRole)
    ensures r.Err? && Contains(r.error.message, "role")
  {
    var builder := new PromptBuilder.Create();
    builder := builder.WithId(Some(id));
    builder := builder.WithRole(badRole);
    builder := builder.WithGoal(goal);
    r := builder.Build();
    MessagesNameTheirField();
  }

  /** With a valid id and role, a goal never set is rejected with the goal message. */
  method BuildWithoutGoal(id: string, role: string) returns (r: Result<Prompt, BuildError>)
    requires !IsBlank(id) && !IsBlank(role)
    ensures r.Err? && Contains(r.error.message, "goal")
  {
    var builder := new PromptBuilder.Create();
    builder := builder.WithId(Some(id));
    builder := builder.WithRole(Some(role));
    r := builder.Build();
    MessagesNameTheirField();
  }

  /** Setting a field twice keeps the second value. */
  method LastWriteWins(id: string, first: string, second: string, goal: Goal) returns (p: Prompt)
    requires !IsBlank(id) && !IsBlank(second)
    ensures p.role == Some(second) && p.id == Some(id) && p.goal == goal
  {
    var builder := new PromptBuilder.Create();
    builder := builder.WithId(Some(id));
    builder := builder.WithRole(Some(first));
    builder := builder.WithGoal(goal);
    builder := builder.WithRole(Some(second));
    var r := builder.Build();
    p := r.value;
  }

  /** Every field set through the fluent chain reaches the prompt unchanged: the strings
      equal, the element objects the very ones passed in. */
  method BuildAllFields(id: string, role: string, goal: Goal, metadata: Metadata, tone: string, context: string,
                        constraints: Constraints, instructions: Instructions, examples: Examples,
                        outputFormat: OutputFormat, safeguards: Safeguards, version: string)
    returns (p: Prompt)
    requires !IsBlank(id) && !IsBlank(role)
    ensures p == Prompt(metadata, Some(role), Some(tone), Some(context), goal, constraints, instructions,
                        examples, outputFormat, safeguards, Some(id), Some(version))
  {
    var builder := new PromptBuilder.Create();
    builder := builder.WithRole(Some(role));
    builder := builder.WithGoal(goal);
    builder := builder.WithMetadata(metadata);
    builder := builder.WithTone(Some(tone));
    builder := builder.WithContext(Some(context));
    builder := builder.WithConstraints(constraints);
    builder := builder.WithInstructions(instructions);
    builder := builder.WithExamples(examples);
    builder := builder.WithOutputFormat(outputFormat);
    builder := builder.WithSafeguards(safeguards);
    builder := builder.WithId(Some(id));
    builder := builder.WithVersion(Some(version));
    var r := builder.Build();
    p := r.value;
  }

  /** The all-fields chain exactly as the types module's test writes it, with no id: this
      builder is the only one with `withInstructions`, and it rejects the chain because the
      id is missing. */
  method AllFieldsWithoutIdRejected(role: string, goal: Goal, metadata: Metadata, tone: string, context: string,
                                    constraints: Constraints, instructions: Instructions, examples: Examples,
                                    outputFormat: OutputFormat, safeguards: Safeguards)
    returns (r: Result<Prompt, BuildError>)
    ensures r == Err(IllegalState(IdMissing))
  {
    var builder := new PromptBuilder.Create();
    builder := builder.WithRole(Some(role));
    builder := builder.WithGoal(goal);
    builder := builder.WithMetadata(metadata);
    builder := builder.WithTone(Some(tone));
    builder := builder.WithContext(Some(context));
    builder := builder.WithConstraints(constraints);
    builder := builder.WithInstructions(instructions);
    builder := builder.WithExamples(examples);
    builder := builder.WithOutputFormat(outputFormat);
    builder := builder.WithSafeguards(safeguards);
    r := builder.Build();
  }

  /** A goal with no content lines is accepted: only a null goal is rejected. */
  method BuildWithEmptyGoal(id: string, role: string) returns (p: Prompt)
    requires !IsBlank(id) && !IsBlank(role)
    ensures p.goal != null && p.goal.content == []
  {
    var goal := new Goal();
    var builder := new PromptBuilder.Create();
    builder := builder.WithId(Some(id));
    builder := builder.WithRole(Some(role));
    builder := builder.WithGoal(goal);
    var r := builder.Build();
    p := r.value;
  }
}
