/** The fluent `PromptBuilder` of the types module: ten fields, no id, and a `build()`
    that checks role, then goal. */
module TypesPromptModel {
  import opened Wrappers
  import opened JavaStrings
  import opened PmlTypes

  /** A built `Prompt` of the types module: the ten fields, `null` / `None` where never
      set. */
  datatype Prompt = Prompt(
    metadata: Metadata?,
    role: Option<string>,
    tone: Option<string>,
    context: Option<string>,
    goal: Goal?,
    constraints: Constraints?,
    steps: Steps?,
    examples: Examples?,
    outputFormat: OutputFormat?,
    safeguards: Safeguards?)

  /** Every field unset. */
  const Unset := Prompt(null, None, None, None, null, null, null, null, null, null)

  class PromptBuilder {
    var metadata: Metadata?
    var role: Option<string>
    var tone: Option<string>
    var context: Option<string>
    var goal: Goal?
    var constraints: Constraints?
    var steps: Steps?
    var examples: Examples?
    var outputFormat: OutputFormat?
    var safeguards: Safeguards?

    /** The builder's current fields, as the prompt they would make. */
    function Fields(): Prompt
      reads this
    {
      Prompt(metadata, role, tone, context, goal, constraints, steps, examples, outputFormat, safeguards)
    }

    /** `create()`: a builder with no field set. */
    constructor Create()
      ensures Fields() == Unset
    {
      metadata, role, tone, context, goal := null, None, None, None, null;
      constraints, steps, examples, outputFormat, safeguards := null, null, null, null, null;
    }

    method WithMetadata(metadata: Metadata?) returns (self: PromptBuilder)
      modifies this
      ensures self == this && Fields() == old(Fields()).(metadata := metadata)
    {
      this.metadata := metadata;
      self := this;
    }

    method WithRole(role: Option<string>) returns (self: PromptBuilder)
      modifies this
      ensures self == this && Fields() == old(Fields()).(role := role)
    {
      this.role := role;
      self := this;
    }

    method WithTone(tone: Option<string>) returns (self: PromptBuilder)
      modifies this
      ensures self == this && Fields() == old(Fields()).(tone := tone)
    {
      this.tone := tone;
      self := this;
    }

    method WithContext(context: Option<string>) returns (self: PromptBuilder)
      modifies this
      ensures self == this && Fields() == old(Fields()).(context := context)
    {
      this.context := context;
      self := this;
    }

    method WithGoal(goal: Goal?) returns (self: PromptBuilder)
      modifies this
      ensures self == this && Fields() == old(Fields()).(goal := goal)
    {
      this.goal := goal;
      self := this;
    }

    method WithConstraints(constraints: Constraints?) returns (self: PromptBuilder)
      modifies this
      ensures self == this && Fields() == old(Fields()).(constraints := constraints)
    {
      this.constraints := constraints;
      self := this;
    }

    method WithSteps(steps: Steps?) returns (self: PromptBuilder)
      modifies this
      ensures self == this && Fields() == old(Fields()).(steps := steps)
    {
      this.steps := steps;
      self := this;
    }

    method WithExamples(examples: Examples?) returns (self: PromptBuilder)
      modifies this
      ensures self == this && Fields() == old(Fields()).(examples := examples)
    {
      this.examples := examples;
      self := this;
    }

    method WithOutputFormat(outputFormat: OutputFormat?) returns (self: PromptBuilder)
      modifies this
      ensures self == this && Fields() == old(Fields()).(outputFormat := outputFormat)
    {
      this.outputFormat := outputFormat;
      self := this;
    }

    method WithSafeguards(safeguards: Safeguards?) returns (self: PromptBuilder)
      modifies this
      ensures self == this && Fields() == old(Fields()).(safeguards := safeguards)
    {
      this.safeguards := safeguards;
      self := this;
    }

    /** `build()`: succeeds exactly when role is given and goal is not null, and then
        copies every field; otherwise fails on role first, then goal. There is no id to
        check. */
    method Build() returns (r: Result<Prompt, BuildError>)
      ensures r.Ok? <==> Given(role) && goal != null
      ensures r.Ok? ==> r.value == Fields()
      ensures !Given(role) ==> r == Err(IllegalState(RoleMissing))
      ensures Given(role) && goal == null ==> r == Err(IllegalState(GoalMissing))
    {
      if role.None? || IsBlank(role.value) {
        return Err(IllegalState(RoleMissing));
      }
      if goal == null {
        return Err(IllegalState(GoalMissing));
      }
      var prompt := Unset;
      prompt := prompt.(metadata := metadata);
      prompt := prompt.(role := role);
      prompt := prompt.(tone := tone);
      prompt := prompt.(context := context);
      prompt := prompt.(goal := goal);
      prompt := prompt.(constraints := constraints);
      prompt := prompt.(steps := steps);
      prompt := prompt.(examples := examples);
      prompt := prompt.(outputFormat := outputFormat);
      prompt := prompt.(safeguards := safeguards);
      r := Ok(prompt);
    }
  }

  /** The minimal prompt: role and goal set, every other field absent in the result. */
  method BuildMinimal(role: string, goal: Goal) returns (p: Prompt)
    requires !IsBlank(role)
    ensures p == Unset.(role := Some(role), goal := goal)
  {
    var builder := new PromptBuilder.Create();
    builder := builder.WithRole(Some(role));
    builder := builder.WithGoal(goal);
    var r := builder.Build();
    p := r.value;
  }

  /** Missing, empty or blank roles are rejected with the role message, whatever the
      goal. */
  method BuildWithBadRole(badRole: Option<string>, goal: Goal?) returns (r: Result<Prompt, BuildError>)
    requires !Given(badRole)
    ensures r.Err? && Contains(r.error.message, "role")
  {
    var builder := new PromptBuilder.Create();
    builder := builder.WithRole(badRole);
    builder := builder.WithGoal(goal);
    r := builder.Build();
    MessagesNameTheirField();
  }

  /** With a valid role, a goal never set is rejected with the goal message. */
  method BuildWithoutGoal(role: string) returns (r: Result<Prompt, BuildError>)
    requires !IsBlank(role)
    ensures r.Err? && Contains(r.error.message, "goal")
  {
    var builder := new PromptBuilder.Create();
    builder := builder.WithRole(Some(role));
    r := builder.Build();
    MessagesNameTheirField();
  }

  /** Every field set through the fluent chain reaches the prompt unchanged. */
  method BuildAllFields(role: string, goal: Goal, metadata: Metadata, tone: string, context: string,
                        constraints: Constraints, steps: Steps, examples: Examples,
                        outputFormat: OutputFormat, safeguards: Safeguards)
    returns (p: Prompt)
    requires !IsBlank(role)
    ensures p == Prompt(metadata, Some(role), Some(tone), Some(context), goal, constraints, steps,
                        examples, outputFormat, safeguards)
  {
    var builder := new PromptBuilder.Create();
    builder := builder.WithRole(Some(role));
    builder := builder.WithGoal(goal);
    builder := builder.WithMetadata(metadata);
    builder := builder.WithTone(Some(tone));
    builder := builder.WithContext(Some(context));
    builder := builder.WithConstraints(constraints);
    builder := builder.WithSteps(steps);
    builder := builder.WithExamples(examples);
    builder := builder.WithOutputFormat(outputFormat);
    builder := builder.WithSafeguards(safeguards);
    var r := builder.Build();
    p := r.value;
  }

  /** Setting the role twice keeps the second value. */
  method LastWriteWins(first: string, second: string, goal: Goal) returns (p: Prompt)
    requires !IsBlank(second)
    ensures p.role == Some(second) && p.goal == goal
  {
    var builder := new PromptBuilder.Create();
    builder := builder.WithRole(Some(first));
    builder := builder.WithGoal(goal);
    builder := builder.WithRole(Some(second));
    var r := builder.Build();
    p := r.value;
  }
}
