/**
 * The part of the zod validation library that the forms rely on: string
 * schemas with length checks and refinements, object schemas, and the
 * issue tree that `ZodError.format()` builds. Only the behaviour the forms
 * reach is modelled, with zod's own default messages.
 */
module Zod {
  import opened Js
  import opened Wrappers

  /** zod's message for an `invalid_type` issue on a missing value. */
  const RequiredMessage := "Required"
  /** zod's message for a failed `.refine` that was given no message. */
  const InvalidInputMessage := "Invalid input"
  /** The key under which `format()` lists the issues of a node itself. */
  const ErrorsKey := "_errors"

  /** The message of an `invalid_type` issue: what was expected, what arrived. */
  function InvalidTypeMessage(expected: string, received: JsValue): (m: string)
    ensures received == Undefined ==> m == RequiredMessage
    ensures received != Undefined ==> m == "Expected " + expected + ", received " + TypeName(received)
  {
    if received == Undefined then RequiredMessage
    else "Expected " + expected + ", received " + TypeName(received)
  }

  /** `z.string()` on its own: a string parses to itself, anything else is one issue. */
  function ParseString(v: JsValue): (r: Result<string, seq<string>>)
    ensures r.Ok? <==> v.Str?
    ensures r.Ok? ==> v == Str(r.value)
    ensures r.Err? ==> r.error == [InvalidTypeMessage("string", v)]
  {
    if v.Str? then Ok(v.s) else Err([InvalidTypeMessage("string", v)])
  }

  /** `.max(n, msg)`: a string longer than n UTF-16 units is an issue. */
  function MaxCheck(s: string, n: nat, msg: string): seq<string>
  {
    if JsLength(s) > n then [msg] else []
  }

  /** `.min(n, msg)`: a string shorter than n UTF-16 units is an issue. */
  function MinCheck(s: string, n: nat, msg: string): seq<string>
  {
    if JsLength(s) < n then [msg] else []
  }

  /** `.refine(p, msg)`: runs only on a value that already parsed as a string. */
  function RefineCheck(s: string, p: string -> bool, msg: string): seq<string>
  {
    if p(s) then [] else [msg]
  }

  /** The issues of `z.string()` alone. */
  function StringIssues(v: JsValue): (issues: seq<string>)
    ensures issues == [] <==> v.Str?
    ensures !v.Str? ==> issues == [InvalidTypeMessage("string", v)]
  {
    match ParseString(v)
    case Err(typeIssues) => typeIssues
    case Ok(_) => []
  }

  /** The issues of `z.string().min(n, msg)`. */
  function MinLengthString(v: JsValue, n: nat, msg: string): (issues: seq<string>)
    ensures issues == [] <==> v.Str? && JsLength(v.s) >= n
    ensures !v.Str? ==> issues == [InvalidTypeMessage("string", v)]
    ensures v.Str? && JsLength(v.s) < n ==> issues == [msg]
  {
    match ParseString(v)
    case Err(typeIssues) => typeIssues
    case Ok(s) => MinCheck(s, n, msg)
  }

  /** The issues of `z.string().refine(p, msg)`: the predicate only sees strings. */
  function RefinedString(v: JsValue, p: string -> bool, msg: string): (issues: seq<string>)
    ensures issues == [] <==> v.Str? && p(v.s)
    ensures !v.Str? ==> issues == [InvalidTypeMessage("string", v)]
    ensures v.Str? && !p(v.s) ==> issues == [msg]
  {
    match ParseString(v)
    case Err(typeIssues) => typeIssues
    case Ok(s) => RefineCheck(s, p, msg)
  }

  /** The issues one field of an object schema produced, in the order zod found them. */
  datatype FieldIssues = FieldIssues(name: string, issues: seq<string>)

  /** No field reported an issue. */
  predicate AllPassed(fields: seq<FieldIssues>)
  {
    forall i :: 0 <= i < |fields| ==> fields[i].issues == []
  }

  /** The fields of an object schema have distinct names, none of them `_errors`. */
  predicate WellNamed(fields: seq<FieldIssues>)
  {
    && (forall i :: 0 <= i < |fields| ==> fields[i].name != ErrorsKey)
    && (forall i, j :: 0 <= i < j < |fields| ==> fields[i].name != fields[j].name)
  }

  /**
   * One value in the object `format()` returns. Its own `_errors` key holds
   * an array; every field with issues holds a node `{ _errors: [...] }`;
   * anything falsy stands for the cases the mapping skips.
   */
  datatype Formatted = Falsy | ErrorList(messages: seq<string>) | ErrorDict(errors: seq<string>)

  /** One `[key, value]` pair of `Object.entries(error.format())`. */
  type Entry = (string, Formatted)

  /**
   * `ZodError.format()` for an object schema: `_errors` first, holding the
   * issues about the object itself, then one node per field that has issues.
   */
  function Format(top: seq<string>, fields: seq<FieldIssues>): (entries: seq<Entry>)
    ensures |entries| >= 1 && entries[0] == (ErrorsKey, ErrorList(top))
    ensures entries[1..] == FieldEntries(fields)
  {
    [(ErrorsKey, ErrorList(top))] + FieldEntries(fields)
  }

  /** The field nodes of `format()`, in field order, one per field that has issues. */
  function FieldEntries(fields: seq<FieldIssues>): (entries: seq<Entry>)
    ensures AllPassed(fields) ==> entries == []
  {
    if fields == [] then []
    else
      var head := if fields[0].issues == [] then [] else [(fields[0].name, ErrorDict(fields[0].issues))];
      head + FieldEntries(fields[1..])
  }

  /** Every node of `format()` belongs to a field with issues, and every such field has its node. */
  lemma {:induction false} FieldEntriesMembers(fields: seq<FieldIssues>)
    ensures forall e :: e in FieldEntries(fields) ==>
      exists f :: f in fields && f.issues != [] && e == (f.name, ErrorDict(f.issues))
    ensures forall f :: f in fields && f.issues != [] ==> (f.name, ErrorDict(f.issues)) in FieldEntries(fields)
  {
    if fields != [] {
      FieldEntriesMembers(fields[1..]);
      assert forall f :: f in fields[1..] ==> f in fields;
      assert forall f :: f in fields ==> f == fields[0] || f in fields[1..];
    }
  }
}
