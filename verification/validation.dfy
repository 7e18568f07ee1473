/**
 * What a FluentValidation `Validate` call produces, and the rule shapes the
 * two validators share. Rules run in declaration order and every failing
 * property validator adds one failure (the default `Continue` cascade);
 * a predicate that dereferences null throws, and the whole call crashes.
 */
module Validation {
  import opened Wrappers
  import opened Strings
  import opened Duplicates

  /** `Crash` is the NullReferenceException; otherwise the ordered failures, empty when valid. */
  datatype Verdict<F> = Crash | Report(failures: seq<F>)

  /** Runs two groups of rules in order: a crash in either loses every failure. */
  function Then<F>(a: Verdict<F>, b: Verdict<F>): (v: Verdict<F>)
    ensures v.Crash? <==> a.Crash? || b.Crash?
    ensures v.Report? ==> v.failures == a.failures + b.failures
  {
    if a.Crash? || b.Crash? then Crash else Report(a.failures + b.failures)
  }

  /** `ValidationResult.IsValid`. */
  predicate IsValid<F>(v: Verdict<F>) {
    v == Report([])
  }

  /** The three checks of `NotNull().NotEmpty().Length(1, max)` on a string. */
  datatype TextFault = IsNull | IsEmpty | BadLength

  /**
   * `NotNull().NotEmpty().Length(1, maxLength)`: `NotNull` fails on null,
   * `NotEmpty` on null or white space only, `Length` (which skips null) on a
   * length outside 1..maxLength.
   */
  function RequiredText(s: Option<string>, maxLength: nat): (faults: seq<TextFault>)
    ensures faults == [] <==> s.Some? && !IsBlank(s.value) && |s.value| <= maxLength
    ensures IsNull in faults <==> s.None?
    ensures IsEmpty in faults <==> s.None? || IsBlank(s.value)
    ensures BadLength in faults <==> s.Some? && (|s.value| == 0 || |s.value| > maxLength)
    ensures Distinct(faults)
  {
    (if s.None? then [IsNull] else [])
    + (if s.None? || IsBlank(s.value) then [IsEmpty] else [])
    + (if s.Some? && !(1 <= |s.value| <= maxLength) then [BadLength] else [])
  }

  /**
   * Each fault of a text rule reported as the failure `tag` makes of it, in
   * the same order: the rule's property name is the only thing the tag adds.
   */
  function Tagged<F(==)>(faults: seq<TextFault>, tag: TextFault -> F): (r: seq<F>)
    requires forall a, b :: tag(a) == tag(b) ==> a == b
    requires Distinct(faults)
    ensures |r| == |faults| && forall i | 0 <= i < |r| :: r[i] == tag(faults[i])
    ensures forall fault :: tag(fault) in r <==> fault in faults
    ensures Distinct(r)
  {
    var r := seq(|faults|, i requires 0 <= i < |faults| => tag(faults[i]));
    assert forall fault | fault in faults :: tag(fault) in r by {
      forall fault | fault in faults ensures tag(fault) in r {
        var i :| 0 <= i < |faults| && faults[i] == fault;
        assert r[i] == tag(fault);
      }
    }
    r
  }
}
