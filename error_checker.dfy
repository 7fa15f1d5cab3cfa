/**
 * The two checks every other class uses to reject its inputs: a missing
 * argument is an argument error, a missing required field a state error.
 */
module ErrorChecker {
  import opened Wrappers

  /** The exceptions the core raises. */
  datatype Error =
    | IllegalArgument(message: string)  // IllegalArgumentException
    | IllegalState(message: string)     // IllegalStateException
    | NoSuchElement                     // NoSuchElementException
    | NullPointer                       // NullPointerException
    | InvalidConfiguration(message: string, property: string)  // InvalidConfigurationException
    | CacheFailure(message: string)     // CacheException

  /** Java's `null` check on a reference, as an Option. */
  function Ref(o: object?): (r: Option<object>)
    ensures r.None? <==> o == null
    ensures r.Some? ==> r.value == o
  {
    if o == null then None else Some(o)
  }

  /** `name` occurs somewhere inside `message`. */
  ghost predicate Mentions(message: string, name: string)
  {
    exists i :: OccursAt(message, name, i)
  }

  ghost predicate OccursAt(message: string, name: string, i: int)
  {
    0 <= i <= |message| - |name| && message[i..i + |name|] == name
  }

  function ArgumentMessage(argumentName: string): string
  {
    "Argument '" + argumentName + "' should not be null."
  }

  function StateMessage(objectName: string): string
  {
    "Object '" + objectName + "' must not be null."
  }

  lemma MessageMentions(prefix: string, name: string, suffix: string)
    ensures Mentions(prefix + name + suffix, name)
  {
    var m := prefix + name + suffix;
    assert m[|prefix|..|prefix| + |name|] == name;
    assert OccursAt(m, name, |prefix|);
  }

  /** Raises an argument error, naming the argument, iff the argument is null. */
  function ThrowIfNullArgument<T>(argument: Option<T>, argumentName: string): (r: Outcome<Error>)
    ensures r.Fail? <==> argument.None?
    ensures r.Fail? ==> r.error.IllegalArgument? && Mentions(r.error.message, argumentName)
  {
    if argument.None? then
      MessageMentions("Argument '", argumentName, "' should not be null.");
      Fail(IllegalArgument(ArgumentMessage(argumentName)))
    else
      Pass
  }

  /** Raises a state error, naming the field, iff the field is unset. */
  function ThrowIfNotSet<T>(value: Option<T>, objectName: string): (r: Outcome<Error>)
    ensures r.Fail? <==> value.None?
    ensures r.Fail? ==> r.error.IllegalState? && Mentions(r.error.message, objectName)
  {
    if value.None? then
      MessageMentions("Object '", objectName, "' must not be null.");
      Fail(IllegalState(StateMessage(objectName)))
    else
      Pass
  }
}
