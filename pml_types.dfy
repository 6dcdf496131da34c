/** What both prompt builders share: the schema-generated classes they hold by reference,
    the exception they throw, and the required-field test. */
module PmlTypes {
  import opened Wrappers
  import opened JavaStrings

  /** The schema-generated element classes. A builder only stores and hands on references
      to them, so only their identity matters; a goal also carries its lines of text. */
  class Metadata { }
  class Goal {
    var content: seq<string>

    /** `new Goal()`: no lines yet. */
    constructor ()
      ensures content == []
    {
      content := [];
    }
  }
  class Constraints { }
  class Instructions { }
  class Steps { }
  class Examples { }
  class OutputFormat { }
  class Safeguards { }

  /** The `IllegalStateException` thrown by `build()`. */
  datatype BuildError = IllegalState(message: string)

  const IdMissing := "Required attribute 'id' is missing or empty"
  const RoleMissing := "Required element 'role' is missing or empty"
  const GoalMissing := "Required element 'goal' is missing"

  /** A required string field is given: not null and not blank. */
  predicate Given(s: Option<string>)
  {
    s.Some? && !IsBlank(s.value)
  }

  /** Each message names the field it is about. */
  lemma MessagesNameTheirField()
    ensures Contains(IdMissing, "id") && Contains(RoleMissing, "role") && Contains(GoalMissing, "goal")
  {
    assert IdMissing[20..22] == "id" by {
      assert IdMissing[20] == 'i' && IdMissing[21] == 'd';
    }
    assert OccursAt(IdMissing, "id", 20);
    assert RoleMissing[18..22] == "role" by {
      assert RoleMissing[18] == 'r' && RoleMissing[19] == 'o' && RoleMissing[20] == 'l' && RoleMissing[21] == 'e';
    }
    assert OccursAt(RoleMissing, "role", 18);
    assert OccursAt(GoalMissing, "goal", 18);
  }
}
