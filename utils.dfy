/** `zodErrorToFormError`: turns zod's flattened error into the form-error record. */
module Utils {
  import opened Wrappers
  import opened Types
  import opened Zod

  /** `Array.prototype.join`. */
  function Join(parts: seq<string>, sep: string): string {
    if parts == [] then ""
    else if |parts| == 1 then parts[0]
    else parts[0] + sep + Join(parts[1..], sep)
  }

  /** Some entry with key `k` has at least one message. */
  ghost predicate Reported(entries: seq<(string, seq<string>)>, k: string) {
    exists i :: 0 <= i < |entries| && entries[i].0 == k && |entries[i].1| > 0
  }

  /** The `reduce` over the field entries: a key with messages gets them joined with ", ". */
  function CollectFields(acc: map<string, string>, entries: seq<(string, seq<string>)>): (r: map<string, string>)
    ensures acc.Keys <= r.Keys
    decreases |entries|
  {
    if entries == [] then acc
    else
      var key := entries[0].0;
      var messages := entries[0].1;
      CollectFields(if |messages| > 0 then acc[key := Join(messages, ", ")] else acc, entries[1..])
  }

  /** The fold keeps the keys it started with and adds exactly the keys that have messages. */
  lemma {:induction false} CollectFieldsKeys(acc: map<string, string>, entries: seq<(string, seq<string>)>)
    ensures forall k :: k in CollectFields(acc, entries) <==> k in acc || Reported(entries, k)
    decreases |entries|
  {
    if entries != [] {
      var key := entries[0].0;
      var messages := entries[0].1;
      var acc' := if |messages| > 0 then acc[key := Join(messages, ", ")] else acc;
      var rest := entries[1..];
      CollectFieldsKeys(acc', rest);
      forall k
        ensures k in CollectFields(acc, entries) <==> k in acc || Reported(entries, k)
      {
        if Reported(rest, k) {
          var i :| 0 <= i < |rest| && rest[i].0 == k && |rest[i].1| > 0;
          assert entries[i + 1] == rest[i];
        }
        if Reported(entries, k) {
          var i :| 0 <= i < |entries| && entries[i].0 == k && |entries[i].1| > 0;
          if i > 0 {
            assert rest[i - 1] == entries[i];
          }
        }
      }
    }
  }

  /**
   * With distinct keys, each key with messages is mapped to its own messages
   * joined with ", ", and every other key keeps the value it started with.
   */
  lemma {:induction false} CollectFieldsValues(acc: map<string, string>, entries: seq<(string, seq<string>)>)
    requires DistinctKeys(entries)
    ensures forall i :: 0 <= i < |entries| && |entries[i].1| > 0 ==>
      entries[i].0 in CollectFields(acc, entries) && CollectFields(acc, entries)[entries[i].0] == Join(entries[i].1, ", ")
    ensures forall k :: k in acc && !Reported(entries, k) ==>
      k in CollectFields(acc, entries) && CollectFields(acc, entries)[k] == acc[k]
    decreases |entries|
  {
    if entries != [] {
      var key := entries[0].0;
      var messages := entries[0].1;
      var acc' := if |messages| > 0 then acc[key := Join(messages, ", ")] else acc;
      var rest := entries[1..];
      var r := CollectFields(acc, entries);
      assert r == CollectFields(acc', rest);
      CollectFieldsValues(acc', rest);
      forall i | 0 <= i < |rest|
        ensures rest[i].0 != key
      {
        assert rest[i] == entries[i + 1];
      }
      forall i | 0 <= i < |entries| && |entries[i].1| > 0
        ensures entries[i].0 in r && r[entries[i].0] == Join(entries[i].1, ", ")
      {
        if i > 0 {
          assert rest[i - 1] == entries[i];
        }
      }
      forall k | k in acc && !Reported(entries, k)
        ensures k in r && r[k] == acc[k]
      {
        forall i | 0 <= i < |rest| && rest[i].0 == k
          ensures |rest[i].1| == 0
        {
          assert rest[i] == entries[i + 1];
        }
      }
    }
  }

  /**
   * `zodErrorToFormError`: the form-level messages joined with ", " when there is
   * at least one, and one entry per field that has messages.
   */
  function ZodErrorToFormError(error: Flattened): (r: FormError)
    ensures r.form.Some? <==> |error.formErrors| > 0
    ensures r.form.Some? ==> r.form.value == Join(error.formErrors, ", ")
    ensures r.fields.Some? <==> error.fieldErrors.Some?
    ensures r.fields.Some? ==> forall k :: k in r.fields.value <==> Reported(error.fieldErrors.value, k)
    ensures r.fields.Some? && DistinctKeys(error.fieldErrors.value) ==>
      var entries := error.fieldErrors.value;
      forall i :: 0 <= i < |entries| && |entries[i].1| > 0 ==>
        entries[i].0 in r.fields.value && r.fields.value[entries[i].0] == Join(entries[i].1, ", ")
  {
    var form := if |error.formErrors| > 0 then Some(Join(error.formErrors, ", ")) else None;
    match error.fieldErrors
    case None => FormError(form, None)
    case Some(entries) =>
      var fields := CollectFields(map[], entries);
      CollectFieldsKeys(map[], entries);
      assert DistinctKeys(entries) ==>
        forall i :: 0 <= i < |entries| && |entries[i].1| > 0 ==>
          entries[i].0 in fields && fields[entries[i].0] == Join(entries[i].1, ", ")
      by {
        if DistinctKeys(entries) {
          CollectFieldsValues(map[], entries);
        }
      }
      FormError(form, Some(fields))
  }
}
