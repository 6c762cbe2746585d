/**
 * The part of zod the handlers use: `safeParse` of an object schema whose
 * members are strings with length and email checks, and the result of
 * `z.flattenError`. The email format and the default wording of zod's own
 * messages are not modelled; a `Validator` supplies them.
 */
module Zod {
  import opened Wrappers

  /**
   * A member of the JSON request body. A member that is neither absent nor a
   * string carries the name zod gives its type ("number", "boolean", "null",
   * "array", "object").
   */
  datatype Value = Absent | Str(s: string) | NonString(kind: string)

  /** The parsed JSON request body; a body that is not an object carries the name of its type. */
  datatype Body = NotObject(kind: string) | Object(members: map<string, Value>) {

    function Get(key: string): Value {
      if Object? && key in members then members[key] else Absent
    }
  }

  /**
   * The checks whose messages zod words itself. A type check names the type it
   * received, as zod's `invalid_type` message does.
   */
  datatype Check =
    | ExpectedObject(received: string)
    | ExpectedString(received: string)
    | InvalidEmail
    | TooSmall(minimum: nat)
    | TooBig(maximum: nat)

  /** zod's email format and its default messages. */
  datatype Validator = Validator(isEmail: string -> bool, message: Check -> string)

  /** One check of a string schema, with the schema's own message when it gives one. */
  datatype Rule = Email | Min(n: nat, text: Option<string>) | Max(n: nat, text: Option<string>)

  /** The result of `z.flattenError`: form-level messages and, per field, its messages in order. */
  datatype Flattened = Flattened(formErrors: seq<string>, fieldErrors: Option<seq<(string, seq<string>)>>)

  /** The result of `safeParse`. */
  datatype Parsed<T> = Parsed(data: T) | Invalid(error: Flattened)

  predicate Satisfies(s: string, rule: Rule, z: Validator) {
    match rule
    case Email => z.isEmail(s)
    case Min(n, _) => |s| >= n
    case Max(n, _) => |s| <= n
  }

  function RuleMessage(rule: Rule, z: Validator): string {
    match rule
    case Email => z.message(InvalidEmail)
    case Min(n, text) => text.GetOr(z.message(TooSmall(n)))
    case Max(n, text) => text.GetOr(z.message(TooBig(n)))
  }

  /** The messages of the rules `s` fails, in the order the schema lists them. */
  function RuleIssues(s: string, rules: seq<Rule>, z: Validator): (r: seq<string>)
    ensures r == [] <==> forall i :: 0 <= i < |rules| ==> Satisfies(s, rules[i], z)
    ensures |r| <= |rules|
  {
    if rules == [] then []
    else
      (if Satisfies(s, rules[0], z) then [] else [RuleMessage(rules[0], z)]) + RuleIssues(s, rules[1..], z)
  }

  /**
   * The issues of one member against a string schema: a missing or non-string
   * member fails with zod's type message (a missing optional member passes).
   */
  function StringIssues(v: Value, rules: seq<Rule>, optional: bool, z: Validator): (r: seq<string>)
    ensures r == [] <==>
      (v.Str? && forall i :: 0 <= i < |rules| ==> Satisfies(v.s, rules[i], z)) || (v.Absent? && optional)
  {
    match v
    case Str(s) => RuleIssues(s, rules, z)
    case Absent => if optional then [] else [z.message(ExpectedString("undefined"))]
    case NonString(kind) => [z.message(ExpectedString(kind))]
  }

  /** The flattened error of a body that is not an object at all. */
  function NotAnObject(received: string, z: Validator): (r: Flattened)
    ensures r.formErrors == [z.message(ExpectedObject(received))]
    ensures r.fieldErrors == Some([])
  {
    Flattened([z.message(ExpectedObject(received))], Some([]))
  }

  /**
   * `fieldErrors[key]` is exactly `issues` when there are any, and `key` has
   * no entry at all when there are none.
   */
  predicate Lists(fieldErrors: seq<(string, seq<string>)>, key: string, issues: seq<string>) {
    && (issues != [] ==> (key, issues) in fieldErrors)
    && (forall e :: e in fieldErrors && e.0 == key ==> e.1 == issues && issues != [])
  }

  /** A list of (key, messages) entries, as `Object.entries` gives it: no key occurs twice. */
  ghost predicate DistinctKeys(entries: seq<(string, seq<string>)>) {
    forall i, j :: 0 <= i < j < |entries| ==> entries[i].0 != entries[j].0
  }

  /** The fields that have at least one message, in schema order. */
  function FieldErrors(fields: seq<(string, seq<string>)>): (r: seq<(string, seq<string>)>)
    ensures forall i :: 0 <= i < |r| ==> |r[i].1| > 0
    ensures forall e :: e in r <==> e in fields && |e.1| > 0
  {
    if fields == [] then []
    else (if |fields[0].1| > 0 then [fields[0]] else []) + FieldErrors(fields[1..])
  }

  /** Dropping the fields without messages keeps the keys distinct. */
  lemma {:induction false} FieldErrorsDistinct(fields: seq<(string, seq<string>)>)
    requires DistinctKeys(fields)
    ensures DistinctKeys(FieldErrors(fields))
  {
    if fields != [] {
      var tail := fields[1..];
      assert DistinctKeys(tail) by {
        forall i, j | 0 <= i < j < |tail| ensures tail[i].0 != tail[j].0 {
          assert tail[i] == fields[i + 1] && tail[j] == fields[j + 1];
        }
      }
      FieldErrorsDistinct(tail);
      var rest := FieldErrors(tail);
      forall e | e in rest ensures e.0 != fields[0].0 {
        var j :| 0 <= j < |tail| && tail[j] == e;
        assert fields[j + 1] == e;
      }
      if |fields[0].1| > 0 {
        var r := [fields[0]] + rest;
        assert FieldErrors(fields) == r;
        forall i, j | 0 <= i < j < |r| ensures r[i].0 != r[j].0 {
          assert r[j] == rest[j - 1];
          if i > 0 {
            assert r[i] == rest[i - 1];
          }
        }
      } else {
        assert FieldErrors(fields) == rest;
      }
    }
  }

  /**
   * With distinct keys, the field errors list each field with exactly its own
   * messages, and a field without messages not at all.
   */
  lemma {:induction false} FieldErrorsLists(fields: seq<(string, seq<string>)>, i: nat)
    requires DistinctKeys(fields) && i < |fields|
    ensures Lists(FieldErrors(fields), fields[i].0, fields[i].1)
  {
    var r := FieldErrors(fields);
    forall e | e in r && e.0 == fields[i].0
      ensures e.1 == fields[i].1 && fields[i].1 != []
    {
      var j :| 0 <= j < |fields| && fields[j] == e;
      assert j == i;
    }
  }
}
