/**
 * The basic-event record of the fault-tree model: a leaf event with a name
 * and an optional probability of failure.
 */
module Events {

  /**
   * A probability of failure.  Its numeric value and range belong to a
   * class outside this model, so it is kept as the literal it was written as.
   */
  datatype Probability = Probability(literal: string)

  /**
   * A value as a dynamically typed caller may hand it over: a probability,
   * nothing at all, or a value of some other type (named by `typeName`).
   */
  datatype Value =
    | ProbabilityValue(probability: Probability)
    | NoneValue
    | OtherValue(typeName: string)

  datatype Outcome = Done | TypeError(message: string)

  const TypeErrorMessage: string := "probability must be an instance of Probability or None"

  /** The values the probability setter accepts. */
  predicate Acceptable(v: Value) {
    v.ProbabilityValue? || v.NoneValue?
  }

  class BasicEvent {
    /** The identifier, kept by the event base class. */
    var name: string
    var probability: Value

    /** Stores both arguments as given; the probability is not type-checked here. */
    constructor(name: string, probability: Value)
      ensures this.name == name
      ensures this.probability == probability
    {
      this.name := name;
      this.probability := probability;
    }

    /** The stored probability, exactly as last stored. */
    function GetProbability(): (v: Value)
      reads this
      ensures v == probability
    {
      probability
    }

    /**
     * Replaces the probability with `value` when it is a probability or
     * nothing; any other value is refused with a type error before anything
     * is stored.  The name is never touched.
     */
    method SetProbability(value: Value) returns (outcome: Outcome)
      modifies this
      ensures outcome == Done <==> Acceptable(value)
      ensures outcome.TypeError? ==> outcome.message == TypeErrorMessage
      ensures probability == (if Acceptable(value) then value else old(probability))
      ensures name == old(name)
    {
      if !Acceptable(value) {
        return TypeError(TypeErrorMessage);
      }
      probability := value;
      outcome := Done;
    }
  }

  /** Setting and then getting: the getter sees what the setter accepted, and nothing else changed. */
  method SetThenGet(e: BasicEvent, value: Value) returns (outcome: Outcome, seen: Value)
    modifies e
    ensures Acceptable(value) ==> outcome == Done && seen == value
    ensures !Acceptable(value) ==> outcome.TypeError? && seen == old(e.probability)
    ensures e.name == old(e.name)
  {
    outcome := e.SetProbability(value);
    seen := e.GetProbability();
  }

  /** A fresh event reports the probability it was built with, `None` included. */
  method NewThenGet(name: string, probability: Value) returns (e: BasicEvent, seen: Value)
    ensures fresh(e)
    ensures e.name == name && seen == probability
  {
    e := new BasicEvent(name, probability);
    seen := e.GetProbability();
  }
}
