/**
 * The part of zod's object validation the dashboard's forms rely on. Every
 * field check yields its issues and says whether it failed on the value's
 * type (a missing required value, NaN, a string outside an enumeration),
 * which "aborts" the object, or only on a refinement such as a length bound,
 * which leaves it "dirty". An object-level `.refine` runs unless some field
 * aborted. A form is valid exactly when the issue list is empty.
 */
module Schema {
  import opened Wrappers

  datatype Issue = Issue(path: string, message: string)

  datatype FieldCheck = FieldCheck(issues: seq<Issue>, aborted: bool)

  const Pass := FieldCheck([], false)

  /** What `Number(input)` gives `z.coerce.number()`: a finite value or NaN (infinities are not modelled). */
  datatype JsNumber = Finite(x: real) | NaN

  /** `z.string().min(n, message)` */
  function MinLength(path: string, value: string, n: nat, message: string): (r: FieldCheck)
    ensures r.issues == [] <==> |value| >= n
    ensures !r.aborted
    ensures r.issues != [] ==> r.issues == [Issue(path, message)]
  {
    if |value| < n then FieldCheck([Issue(path, message)], false) else Pass
  }

  /** `z.string().max(n, message)` */
  function MaxLength(path: string, value: string, n: nat, message: string): (r: FieldCheck)
    ensures r.issues == [] <==> |value| <= n
    ensures !r.aborted
  {
    if |value| > n then FieldCheck([Issue(path, message)], false) else Pass
  }

  /** Two checks on the same value, both reported. */
  function Then(a: FieldCheck, b: FieldCheck): (r: FieldCheck)
    ensures r.issues == [] <==> a.issues == [] && b.issues == []
    ensures r.aborted == (a.aborted || b.aborted)
  {
    FieldCheck(a.issues + b.issues, a.aborted || b.aborted)
  }

  /** A required value that is absent: zod's `required_error`, which aborts. */
  function Missing(path: string, message: string): (r: FieldCheck)
    ensures r.issues != [] && r.aborted
  {
    FieldCheck([Issue(path, message)], true)
  }

  /**
   * A required field of any type: `required_error` when it is absent, which
   * aborts the field, and no issue when it is present.
   */
  function Required<T>(path: string, value: Option<T>, message: string): (r: FieldCheck)
    ensures r.issues == [] <==> value.Some?
    ensures r.aborted <==> value.None?
    ensures value.None? ==> r.issues == [Issue(path, message)]
  {
    if value.None? then Missing(path, message) else Pass
  }

  /** `z.enum(options)` on a present value: anything outside the options is a type failure. */
  function OneOf(path: string, value: string, options: seq<string>, message: string): (r: FieldCheck)
    ensures r.issues == [] <==> value in options
    ensures r.aborted <==> value !in options
  {
    if value in options then Pass else FieldCheck([Issue(path, message)], true)
  }

  /** `z.coerce.number().int(intMessage).nonnegative(nonNegMessage)` */
  function NonNegativeInt(path: string, value: JsNumber, intMessage: string, nonNegMessage: string): (r: FieldCheck)
    ensures r.issues == [] <==> value.Finite? && value.x >= 0.0 && value.x == value.x.Floor as real
    ensures r.aborted <==> value.NaN?
  {
    match value
    case NaN => FieldCheck([Issue(path, "Expected number, received nan")], true)
    case Finite(x) =>
      Then(
        if x == x.Floor as real then Pass else FieldCheck([Issue(path, intMessage)], false),
        if x >= 0.0 then Pass else FieldCheck([Issue(path, nonNegMessage)], false))
  }

  /** All the issues of the fields, in field order. */
  function Flatten(checks: seq<FieldCheck>): (r: seq<Issue>)
    ensures r == [] <==> forall i :: 0 <= i < |checks| ==> checks[i].issues == []
  {
    if checks == [] then [] else checks[0].issues + Flatten(checks[1..])
  }

  predicate AnyAborted(checks: seq<FieldCheck>) {
    exists i :: 0 <= i < |checks| && checks[i].aborted
  }

  /** An aborted field always has an issue. */
  predicate WellFormed(checks: seq<FieldCheck>) {
    forall i :: 0 <= i < |checks| ==> checks[i].aborted ==> checks[i].issues != []
  }

  /** One field's check is well formed. */
  predicate Sound(c: FieldCheck) {
    c.aborted ==> c.issues != []
  }

  lemma WellFormedEight(c0: FieldCheck, c1: FieldCheck, c2: FieldCheck, c3: FieldCheck, c4: FieldCheck, c5: FieldCheck, c6: FieldCheck, c7: FieldCheck)
    requires Sound(c0) && Sound(c1) && Sound(c2) && Sound(c3) && Sound(c4) && Sound(c5) && Sound(c6) && Sound(c7)
    ensures WellFormed([c0, c1, c2, c3, c4, c5, c6, c7])
  {
    var checks := [c0, c1, c2, c3, c4, c5, c6, c7];
    forall i | 0 <= i < 8 ensures Sound(checks[i]) {
    }
  }

  lemma PassesEight(c0: FieldCheck, c1: FieldCheck, c2: FieldCheck, c3: FieldCheck, c4: FieldCheck, c5: FieldCheck, c6: FieldCheck, c7: FieldCheck)
    ensures (forall i :: 0 <= i < 8 ==> [c0, c1, c2, c3, c4, c5, c6, c7][i].issues == []) <==>
      c0.issues == [] && c1.issues == [] && c2.issues == [] && c3.issues == [] &&
      c4.issues == [] && c5.issues == [] && c6.issues == [] && c7.issues == []
  {
    var checks := [c0, c1, c2, c3, c4, c5, c6, c7];
    assert checks[0] == c0 && checks[1] == c1 && checks[2] == c2 && checks[3] == c3;
    assert checks[4] == c4 && checks[5] == c5 && checks[6] == c6 && checks[7] == c7;
  }

  lemma NoneAbortedEight(checks: seq<FieldCheck>)
    requires |checks| == 8
    requires !checks[0].aborted && !checks[1].aborted && !checks[2].aborted && !checks[3].aborted
    requires !checks[4].aborted && !checks[5].aborted && !checks[6].aborted && !checks[7].aborted
    ensures !AnyAborted(checks)
  {
  }

  /** The object's issues: the fields', then the refinement's when it runs and fails. */
  function ObjectIssues(checks: seq<FieldCheck>, refineHolds: bool, refineIssue: Issue): (r: seq<Issue>)
    requires WellFormed(checks)
    ensures r == [] <==> (forall i :: 0 <= i < |checks| ==> checks[i].issues == []) && refineHolds
    ensures !AnyAborted(checks) && !refineHolds ==> refineIssue in r
    ensures AnyAborted(checks) ==> r == Flatten(checks)
  {
    var base := Flatten(checks);
    if AnyAborted(checks) || refineHolds then base else base + [refineIssue]
  }
}
