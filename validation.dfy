/**
 * The part of zod the two site forms use: `z.string().min(n, { message })`.
 * zod compares the JavaScript `length`, which counts UTF-16 code units.
 */
module Validation {
  import JsString

  /** One failed check, reported under the name of its form field. */
  datatype FieldError = FieldError(field: string, message: string)

  /** `z.string().min(min, { message })` on the field `field`. */
  function MinLength(field: string, value: string, min: nat, message: string): (errors: seq<FieldError>)
    ensures errors == [] <==> JsString.Length(value) >= min
    ensures errors != [] ==> errors == [FieldError(field, message)]
  {
    if JsString.Length(value) >= min then [] else [FieldError(field, message)]
  }

  /** A check by a predicate of the library's own, such as `.email()`. */
  function Check(field: string, ok: bool, message: string): (errors: seq<FieldError>)
    ensures errors == [] <==> ok
    ensures errors != [] ==> errors == [FieldError(field, message)]
  {
    if ok then [] else [FieldError(field, message)]
  }

  /** No failed check is reported twice. */
  ghost predicate NoRepeats(errors: seq<FieldError>)
  {
    forall i, j :: 0 <= i < j < |errors| ==> errors[i] != errors[j]
  }

  /** Joining two error lists without a common error repeats nothing. */
  lemma AppendNoRepeats(a: seq<FieldError>, b: seq<FieldError>)
    requires NoRepeats(a) && NoRepeats(b)
    requires forall e :: e in a ==> e !in b
    ensures NoRepeats(a + b)
  {
    forall i, j | 0 <= i < j < |a + b|
      ensures (a + b)[i] != (a + b)[j]
    {
      if i < |a| && j >= |a| {
        assert (a + b)[i] in a && (a + b)[j] in b;
      }
    }
  }

  /**
   * Four checks, each reporting at most its own error, joined in order: an
   * error is reported iff its check failed, and none twice.
   */
  lemma JoinChecks(a: seq<FieldError>, b: seq<FieldError>, c: seq<FieldError>, d: seq<FieldError>,
                   ea: FieldError, eb: FieldError, ec: FieldError, ed: FieldError)
    requires (a == [] || a == [ea]) && (b == [] || b == [eb]) && (c == [] || c == [ec]) && (d == [] || d == [ed])
    requires ea.field != eb.field && ea.field != ec.field && ea.field != ed.field
    requires eb.field != ec.field && eb.field != ed.field && ec.field != ed.field
    ensures forall e :: e in a + b + c + d <==>
              (a != [] && e == ea) || (b != [] && e == eb) || (c != [] && e == ec) || (d != [] && e == ed)
    ensures NoRepeats(a + b + c + d)
  {
    AppendNoRepeats(a, b);
    AppendNoRepeats(a + b, c);
    AppendNoRepeats(a + b + c, d);
  }
}
