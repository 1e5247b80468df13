// When a value becomes available: after its inputs and its own delay.

module Availability {
  import opened Wrappers

  /** Everything the availability formula reads; times are in microseconds. */
  datatype AvailabilityInputs = AvailabilityInputs(
    lookbackEnd: int,
    computedAt: int,
    availabilityDelay: int,
    rawInputIngestedAt: Option<int>,
    dependencyAvailableAt: seq<int>)

  function Later(a: Option<int>, b: int): Option<int> {
    if a.Some? && a.value >= b then a else Some(b)
  }

  /** The later of raw readiness and every dependency's availability; nothing if there is no input. */
  function LatestInput(raw: Option<int>, dependencies: seq<int>): Option<int> {
    if dependencies == [] then raw
    else Later(LatestInput(raw, dependencies[..|dependencies| - 1]), dependencies[|dependencies| - 1])
  }

  function Max(a: int, b: int): int {
    if a >= b then a else b
  }

  function AvailableAt(inputs: AvailabilityInputs): int {
    var base := Max(inputs.lookbackEnd, inputs.computedAt);
    var latest := LatestInput(inputs.rawInputIngestedAt, inputs.dependencyAvailableAt);
    (if latest.Some? then Max(base, latest.value) else base) + inputs.availabilityDelay
  }

  /** One of the times the formula takes the maximum of. */
  ghost predicate Condition(inputs: AvailabilityInputs, t: int) {
    || t == inputs.lookbackEnd
    || t == inputs.computedAt
    || inputs.rawInputIngestedAt == Some(t)
    || t in inputs.dependencyAvailableAt
  }

  lemma {:induction false} LatestInputIsMaximum(raw: Option<int>, dependencies: seq<int>)
    ensures var latest := LatestInput(raw, dependencies);
            && (latest.None? <==> raw.None? && dependencies == [])
            && (latest.Some? ==> latest == raw || latest.value in dependencies)
            && (raw.Some? ==> raw.value <= latest.value)
            && forall t | t in dependencies :: t <= latest.value
  {
    if dependencies != [] {
      var before, last := dependencies[..|dependencies| - 1], dependencies[|dependencies| - 1];
      LatestInputIsMaximum(raw, before);
      assert forall t :: t in dependencies <==> t in before || t == last;
    }
  }

  /** Available a full delay after the last condition is met, and not a moment later. */
  lemma AvailableAfterLastCondition(inputs: AvailabilityInputs)
    ensures forall t | Condition(inputs, t) :: t + inputs.availabilityDelay <= AvailableAt(inputs)
    ensures Condition(inputs, AvailableAt(inputs) - inputs.availabilityDelay)
  {
    LatestInputIsMaximum(inputs.rawInputIngestedAt, inputs.dependencyAvailableAt);
  }

  datatype Violation = BeforeLookbackEnd | BeforeComputation | BeforeLatestInput

  function CheckInvariants(value: int, inputs: AvailabilityInputs): seq<Violation> {
    var latest := LatestInput(inputs.rawInputIngestedAt, inputs.dependencyAvailableAt);
    (if value < inputs.lookbackEnd then [BeforeLookbackEnd] else [])
    + (if value < inputs.computedAt then [BeforeComputation] else [])
    + (if latest.Some? && value < latest.value then [BeforeLatestInput] else [])
  }

  /** The check passes exactly when no condition is still unmet. */
  lemma NoViolationIffAfterEveryCondition(value: int, inputs: AvailabilityInputs)
    ensures CheckInvariants(value, inputs) == [] <==> forall t | Condition(inputs, t) :: t <= value
  {
    LatestInputIsMaximum(inputs.rawInputIngestedAt, inputs.dependencyAvailableAt);
    assert Condition(inputs, inputs.lookbackEnd) && Condition(inputs, inputs.computedAt);
    var latest := LatestInput(inputs.rawInputIngestedAt, inputs.dependencyAvailableAt);
    assert latest.Some? ==> Condition(inputs, latest.value);
  }
}
