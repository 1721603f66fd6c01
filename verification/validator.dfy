/**
 * The request validator (`JSONValidator`) and the two exceptions it raises.
 *
 * A schema is a model's `fields` tuple (the required fields, in declared
 * order) with its `get_types()` table (field name to type checker). The
 * checkers themselves live in a module of the service that is not part of
 * this model, so a validator is a parameter: it maps a checker and a value to
 * whether the value has the expected type and the expected type's name.
 */
module Validator {
  import opened Json
  import opened Http

  /** The checkers of the type-validator module. */
  datatype Checker = IsInt | IsFloat | IsString | IsBool

  /** `is_same_type, required_type = function(value=parameter_value)` */
  type TypeValidator = (Checker, JsonValue) -> (bool, string)

  /** The string, int and bool checkers accept only values of their own JSON
      kind (the float checker is left unconstrained). The service stores
      accepted values in typed columns, so the store handlers rely on this. */
  ghost predicate Strict(tv: TypeValidator) {
    forall v ::
      && (tv(IsString, v).0 ==> v.JString?)
      && (tv(IsInt, v).0 ==> v.JInt?)
      && (tv(IsBool, v).0 ==> v.JBool?)
  }

  datatype Schema = Schema(fields: seq<string>, types: map<string, Checker>)

  /** The checker table has an entry for exactly the required fields. */
  predicate Consistent(schema: Schema) {
    schema.types.Keys == set f | f in schema.fields
  }

  /** The outcome of `check_parameters`: it returns normally, raises one of
      the two exceptions of the service, or fails on a key that has no
      checker (`types[parameter_name]` raises `KeyError`). */
  datatype Verdict =
    | Valid
    | NotEnoughParameters(missing: seq<string>)
    | InvalidParameterType(key: string, got: JsonValue, required: string)
    | UnknownParameter(key: string)

  /** `json_dict.get(field) is None`: the key is absent or holds null. */
  predicate Absent(p: Payload, field: string) {
    Find(p, field).None? || Find(p, field) == Some(JNull)
  }

  /** `a` occurs in `b` in the same order, possibly with gaps. */
  predicate IsSubsequence(a: seq<string>, b: seq<string>) {
    if a == [] then true
    else if b == [] then false
    else if a[0] == b[0] then IsSubsequence(a[1..], b[1..])
    else IsSubsequence(a, b[1..])
  }

  lemma {:induction false} SubsequenceOfTail(a: seq<string>, b: seq<string>)
    requires b != [] && IsSubsequence(a, b[1..])
    ensures IsSubsequence(a, b)
  {
    if a != [] && a[0] == b[0] {
      if |b| > 1 {
        if a[0] == b[1] {
          assert IsSubsequence(a[1..], b[2..]);
          SubsequenceOfTail(a[1..], b[1..]);
        } else {
          assert IsSubsequence(a, b[2..]);
          DropFirst(a, b[2..]);
          SubsequenceOfTail(a[1..], b[1..]);
        }
      }
    }
  }

  lemma {:induction false} DropFirst(a: seq<string>, b: seq<string>)
    requires a != [] && IsSubsequence(a, b)
    ensures IsSubsequence(a[1..], b)
  {
    if a[1..] != [] && b != [] {
      if a[0] == b[0] {
        SubsequenceOfTail(a[1..], b);
      } else {
        DropFirst(a, b[1..]);
        SubsequenceOfTail(a[1..], b);
      }
    }
  }

  /** `get_missing_parameters`: the required fields that are absent or null,
      kept in the schema's declared order. */
  function MissingParameters(fields: seq<string>, p: Payload): (r: seq<string>)
    ensures forall f :: f in r <==> f in fields && Absent(p, f)
    ensures IsSubsequence(r, fields)
  {
    if fields == [] then []
    else
      var rest := MissingParameters(fields[1..], p);
      if Absent(p, fields[0]) then
        [fields[0]] + rest
      else
        SubsequenceOfTail(rest, fields);
        rest
  }

  /** A payload entry that its checker accepts. */
  predicate Passes(types: map<string, Checker>, tv: TypeValidator, entry: (string, JsonValue)) {
    entry.0 in types && tv(types[entry.0], entry.1).0
  }

  /** What `validate_parameter_types` reports for an entry that does not pass. */
  function Failure(types: map<string, Checker>, tv: TypeValidator, entry: (string, JsonValue)): Verdict {
    if entry.0 !in types then UnknownParameter(entry.0)
    else InvalidParameterType(entry.0, entry.1, tv(types[entry.0], entry.1).1)
  }

  /** `validate_parameter_types`: visits the entries in payload order and
      stops at the first one that does not pass. */
  function ValidateParameterTypes(types: map<string, Checker>, p: seq<(string, JsonValue)>, tv: TypeValidator): (r: Verdict)
    ensures !r.NotEnoughParameters?
    ensures r.Valid? <==> forall i :: 0 <= i < |p| ==> Passes(types, tv, p[i])
  {
    if p == [] then Valid
    else if !Passes(types, tv, p[0]) then Failure(types, tv, p[0])
    else ValidateParameterTypes(types, p[1..], tv)
  }

  /** A failed type check names the first entry, in payload order, that its
      checker rejects or that has no checker; every entry before it passed. */
  lemma {:induction false} FirstFailure(types: map<string, Checker>, p: seq<(string, JsonValue)>, tv: TypeValidator)
    requires !ValidateParameterTypes(types, p, tv).Valid?
    ensures exists i :: 0 <= i < |p| && FailsFirstAt(types, tv, p, i)
                        && ValidateParameterTypes(types, p, tv) == Failure(types, tv, p[i])
  {
    if Passes(types, tv, p[0]) {
      FirstFailure(types, p[1..], tv);
      var i :| 0 <= i < |p[1..]| && FailsFirstAt(types, tv, p[1..], i)
               && ValidateParameterTypes(types, p[1..], tv) == Failure(types, tv, p[1..][i]);
      assert FailsFirstAt(types, tv, p, i + 1);
    } else {
      assert FailsFirstAt(types, tv, p, 0);
    }
  }

  /** Entry `i` is the first that does not pass. */
  predicate FailsFirstAt(types: map<string, Checker>, tv: TypeValidator, p: seq<(string, JsonValue)>, i: int)
    requires 0 <= i < |p|
  {
    !Passes(types, tv, p[i]) && forall j :: 0 <= j < i ==> Passes(types, tv, p[j])
  }

  /** `check_parameters`: missing fields first; only when none is missing do
      the checkers run. */
  function CheckParameters(schema: Schema, p: Payload, tv: TypeValidator): (r: Verdict)
    ensures r.NotEnoughParameters? <==> exists f :: f in schema.fields && Absent(p, f)
    ensures r.NotEnoughParameters? ==>
              && r.missing != []
              && (forall f :: f in r.missing <==> f in schema.fields && Absent(p, f))
              && IsSubsequence(r.missing, schema.fields)
    ensures r.Valid? <==>
              && (forall f :: f in schema.fields ==> !Absent(p, f))
              && (forall i :: 0 <= i < |p| ==> Passes(schema.types, tv, p[i]))
  {
    var missing := MissingParameters(schema.fields, p);
    if missing != [] then
      assert missing[0] in missing;
      NotEnoughParameters(missing)
    else ValidateParameterTypes(schema.types, p, tv)
  }

  /** While a required field is missing, the outcome is the missing list
      whatever the checkers would say: no checker runs. */
  lemma MissingRunsNoChecker(schema: Schema, p: Payload, tv: TypeValidator, other: TypeValidator)
    requires exists f :: f in schema.fields && Absent(p, f)
    ensures CheckParameters(schema, p, tv) == CheckParameters(schema, p, other)
    ensures CheckParameters(schema, p, tv) == NotEnoughParameters(MissingParameters(schema.fields, p))
  {
    var f :| f in schema.fields && Absent(p, f);
    assert f in MissingParameters(schema.fields, p);
  }

  /** When the checkers run, none of them is handed the null of a required
      field: a required field holding null is reported as missing. */
  lemma NoCheckerSeesNull(schema: Schema, p: Payload, tv: TypeValidator)
    requires Consistent(schema)
    requires !CheckParameters(schema, p, tv).NotEnoughParameters?
    ensures forall i :: 0 <= i < |p| && p[i].0 in schema.types ==> p[i].1 != JNull
  {
    forall i | 0 <= i < |p| && p[i].0 in schema.types ensures p[i].1 != JNull {
      assert p[i].0 in schema.fields;
      FindAt(p, i);
    }
  }

  /** A payload the validator accepts holds every required field, non-null,
      and no other key. */
  lemma ValidPayloadKeys(schema: Schema, p: Payload, tv: TypeValidator)
    requires Consistent(schema)
    requires CheckParameters(schema, p, tv).Valid?
    ensures KeySet(p) == set f | f in schema.fields
    ensures forall i :: 0 <= i < |p| ==> p[i].1 != JNull
  {
    forall f | f in schema.fields ensures f in KeySet(p) {
      assert !Absent(p, f);
      var i :| 0 <= i < |p| && p[i] == (f, Find(p, f).value);
    }
    forall i | 0 <= i < |p| ensures p[i].0 in schema.fields && p[i].1 != JNull {
      assert Passes(schema.types, tv, p[i]);
      FindAt(p, i);
    }
  }

  /** A required field of an accepted payload is present, non-null, and its
      checker accepted its value. */
  lemma AcceptedField(schema: Schema, p: Payload, tv: TypeValidator, f: string)
    requires CheckParameters(schema, p, tv).Valid?
    requires f in schema.fields
    ensures Find(p, f).Some? && Find(p, f).value != JNull
    ensures f in schema.types && tv(schema.types[f], Find(p, f).value).0
  {
    assert !Absent(p, f);
    var i :| 0 <= i < |p| && p[i] == (f, Find(p, f).value);
    assert Passes(schema.types, tv, p[i]);
  }

  /** `str(missing_parameters)[1:-1]`: each name quoted, separated by commas. */
  function QuotedList(names: seq<string>): (r: string)
    ensures r == "" <==> names == []
    ensures forall i :: 0 <= i < |names| ==> Contains(r, "'" + names[i] + "'")
  {
    if names == [] then ""
    else
      var first := "'" + names[0] + "'";
      var r := if |names| == 1 then first else first + ", " + QuotedList(names[1..]);
      assert r == "" + first + r[|first|..];
      ContainsInfix("", first, r[|first|..]);
      forall i | 1 <= i < |names| ensures Contains(r, "'" + names[i] + "'") {
        assert names[1..][i - 1] == names[i];
        ContainsExtend(first + ", ", QuotedList(names[1..]), "", "'" + names[i] + "'");
        assert first + ", " + QuotedList(names[1..]) + "" == r;
      }
      r
  }

  const RequiredWording := "parameters are required"
  const WrongTypeWording := "Wrong parameter type"

  /** Every name of the list appears quoted after any heading. */
  lemma QuotedAfter(head: string, names: seq<string>)
    ensures forall i :: 0 <= i < |names| ==> Contains(head + QuotedList(names), "'" + names[i] + "'")
  {
    forall i | 0 <= i < |names| ensures Contains(head + QuotedList(names), "'" + names[i] + "'") {
      ContainsExtend(head, QuotedList(names), "", "'" + names[i] + "'");
      assert head + QuotedList(names) + "" == head + QuotedList(names);
    }
  }

  /** A string made of four parts contains its second and its last part. */
  lemma ContainsParts(a: string, b: string, c: string, d: string)
    ensures Contains(a + b + c + d, b) && Contains(a + b + c + d, d)
  {
    assert (a + b + c + d)[|a|..|a| + |b|] == b;
    ContainsAt(a + b + c + d, b, |a|);
    assert (a + b + c + d)[|a + b + c|..|a + b + c| + |d|] == d;
    ContainsAt(a + b + c + d, d, |a + b + c|);
  }

  /** The message each exception carries. It names what went wrong: every
      missing parameter, or the type received and the type expected. */
  function ErrorMessage(v: Verdict): (r: string)
    requires v.NotEnoughParameters? || v.InvalidParameterType?
    ensures v.NotEnoughParameters? ==> forall i :: 0 <= i < |v.missing| ==> Contains(r, "'" + v.missing[i] + "'")
    ensures v.InvalidParameterType? ==> Contains(r, PythonTypeName(v.got)) && Contains(r, v.required)
  {
    if v.NotEnoughParameters? then
      var head := "The following " + RequiredWording + ": ";
      QuotedAfter(head, v.missing);
      head + QuotedList(v.missing)
    else
      var before, got, middle := WrongTypeWording + ". Got '", PythonTypeName(v.got), "'. Expected ";
      ContainsParts(before, got, middle, v.required);
      before + got + middle + v.required
  }

  /** The messages name the failure the way clients look for it. */
  lemma MessageWording(v: Verdict)
    requires v.NotEnoughParameters? || v.InvalidParameterType?
    ensures v.NotEnoughParameters? ==> Contains(ErrorMessage(v), "parameters are required")
    ensures v.InvalidParameterType? ==> Contains(ErrorMessage(v), "Wrong parameter type")
  {
    if v.NotEnoughParameters? {
      var m := ErrorMessage(v);
      assert m[|"The following "|..|"The following "| + |RequiredWording|] == RequiredWording;
      ContainsAt(m, RequiredWording, |"The following "|);
    } else {
      var m := ErrorMessage(v);
      assert m[0..|WrongTypeWording|] == WrongTypeWording;
      ContainsAt(m, WrongTypeWording, 0);
    }
  }

  /** The response a handler returns when validation fails: the two service
      exceptions become 422 with a 'Warning' or 'Error' message; a key with
      no checker escapes as `KeyError`. */
  function Rejection(v: Verdict): (r: Response)
    requires !v.Valid?
    ensures r.status == 422 <==> (v.NotEnoughParameters? || v.InvalidParameterType?)
    ensures v.NotEnoughParameters? ==> r == Message(422, "Warning", ErrorMessage(v))
    ensures v.InvalidParameterType? ==> r == Message(422, "Error", ErrorMessage(v))
    ensures v.UnknownParameter? ==> r == Raised("KeyError")
  {
    match v
    case NotEnoughParameters(_) => Message(422, "Warning", ErrorMessage(v))
    case InvalidParameterType(_, _, _) => Message(422, "Error", ErrorMessage(v))
    case UnknownParameter(_) => Raised("KeyError")
  }

  /** A call of `check_parameters` with its first argument passed by
      keyword. Python binds keyword arguments by parameter name; the
      parameter is called `object`, so any other keyword raises `TypeError`
      before the body runs. */
  datatype Call = Returned(verdict: Verdict) | RaisedTypeError

  function CallCheckParameters(keyword: string, schema: Schema, p: Payload, tv: TypeValidator): Call {
    if keyword == "object" then Returned(CheckParameters(schema, p, tv)) else RaisedTypeError
  }

  /** The sector handlers pass the schema as `object_model=`: as written, the
      call raises `TypeError` for every payload, valid or not, so it can never
      produce the 422 the handlers catch. */
  lemma SectorCallAsWritten(schema: Schema, p: Payload, tv: TypeValidator)
    ensures CallCheckParameters("object_model", schema, p, tv) == RaisedTypeError
    ensures CallCheckParameters("object", schema, p, tv) == Returned(CheckParameters(schema, p, tv))
  {
  }
}
