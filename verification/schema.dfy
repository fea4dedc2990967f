/**
 * The shared validation vocabulary: the tagged success/error response, the
 * flat field -> message error map, the one-entry error constructor, the
 * reduction of zod's issue tree into that map, and the JSON pre-parsing
 * caster.
 */
module Schema {
  import opened Js
  import opened Wrappers
  import opened Zod

  /**
   * The `errors` object of a SchemaErrorDefinition. A key can be present
   * with the value `undefined` (None): that is what `list[0]` yields for an
   * empty list.
   */
  type ErrorMap = map<string, Option<string>>

  datatype SchemaErrorDefinition = SchemaErrorDefinition(errors: ErrorMap)

  /** Some key of the error map holds a message, not `undefined`. */
  predicate HasMessage(m: ErrorMap)
  {
    exists k :: k in m && m[k].Some?
  }

  /** `{ state: 'error', error }` or `{ state: 'success', data }`. */
  datatype SchemaValidationResponse<+T> = Error(error: SchemaErrorDefinition) | Success(data: T)

  /** The error of one field, built outside any schema (a business-rule failure). */
  function FormError(field: string, error: string): (r: SchemaErrorDefinition)
    ensures r.errors.Keys == {field}
    ensures r.errors[field] == Some(error)
    ensures HasMessage(r.errors)
  {
    assert field in map[field := Some(error)];
    SchemaErrorDefinition(map[field := Some(error)])
  }

  /** `list[0]`: the first message, `undefined` when the list is empty. */
  function First(messages: seq<string>): (r: Option<string>)
    ensures r.Some? <==> messages != []
    ensures r.Some? ==> r.value == messages[0]
  {
    if messages == [] then None else Some(messages[0])
  }

  /** The message list a formatted node holds. */
  function Messages(node: Formatted): seq<string>
  {
    match node
    case Falsy => []
    case ErrorList(messages) => messages
    case ErrorDict(errors) => errors
  }

  /**
   * One call of the reducer: a falsy node adds nothing, an array contributes
   * its element 0, a node contributes element 0 of its `_errors`.
   */
  function MapEntry(acc: ErrorMap, entry: Entry): ErrorMap
  {
    match entry.1
    case Falsy => acc
    case ErrorList(messages) => acc[entry.0 := First(messages)]
    case ErrorDict(errors) => acc[entry.0 := First(errors)]
  }

  /** The reduction over the entries of `format()`, starting from an empty map. */
  function MapZodErrorSpec(entries: seq<Entry>): (m: ErrorMap)
    ensures |m| <= |entries|
  {
    if entries == [] then map[]
    else MapEntry(MapZodErrorSpec(entries[..|entries| - 1]), entries[|entries| - 1])
  }

  /**
   * `mapZodError`: walks the entries of the formatted issue tree and writes
   * each field's first message into the accumulator.
   */
  method MapZodError(entries: seq<Entry>) returns (r: SchemaErrorDefinition)
    ensures r.errors == MapZodErrorSpec(entries)
  {
    var errorMap: ErrorMap := map[];
    var i := 0;
    while i < |entries|
      invariant 0 <= i <= |entries|
      invariant errorMap == MapZodErrorSpec(entries[..i])
    {
      var (field, node) := entries[i];
      assert entries[..i + 1][..i] == entries[..i];
      match node {
        case Falsy =>
        case ErrorList(messages) =>
          errorMap := errorMap[field := First(messages)];
        case ErrorDict(errors) =>
          errorMap := errorMap[field := First(errors)];
      }
      i := i + 1;
    }
    assert entries[..|entries|] == entries;
    r := SchemaErrorDefinition(errorMap);
  }

  /** The keys of `Object.entries` are distinct. */
  predicate DistinctKeys(entries: seq<Entry>)
  {
    forall i, j :: 0 <= i < j < |entries| ==> entries[i].0 != entries[j].0
  }

  /** A field is in the error map exactly when some entry for it was not falsy. */
  lemma {:induction false} MapZodErrorKeys(entries: seq<Entry>)
    ensures forall k :: k in MapZodErrorSpec(entries) <==>
      exists i :: 0 <= i < |entries| && entries[i].0 == k && !entries[i].1.Falsy?
  {
    if entries != [] {
      var n := |entries| - 1;
      MapZodErrorKeys(entries[..n]);
      assert forall i :: 0 <= i < n ==> entries[..n][i] == entries[i];
    }
  }

  /** With distinct keys, a non-falsy entry decides its field's message: the first one it lists. */
  lemma {:induction false} MapZodErrorValue(entries: seq<Entry>, i: nat)
    requires DistinctKeys(entries)
    requires i < |entries| && !entries[i].1.Falsy?
    ensures entries[i].0 in MapZodErrorSpec(entries)
    ensures MapZodErrorSpec(entries)[entries[i].0] == First(Messages(entries[i].1))
  {
    var n := |entries| - 1;
    if i < n {
      assert DistinctKeys(entries[..n]) by {
        assert forall a :: 0 <= a < n ==> entries[..n][a] == entries[a];
      }
      MapZodErrorValue(entries[..n], i);
    }
  }

  /** The field nodes of a well-named object have distinct keys, none of them `_errors`. */
  lemma {:induction false} FieldEntriesDistinct(fields: seq<FieldIssues>)
    requires WellNamed(fields)
    ensures DistinctKeys(FieldEntries(fields))
    ensures forall i :: 0 <= i < |FieldEntries(fields)| ==> FieldEntries(fields)[i].0 != ErrorsKey
  {
    FieldEntriesAvoid(fields, ErrorsKey);
    if fields != [] {
      var rest := fields[1..];
      assert WellNamed(rest) by {
        assert forall j :: 0 <= j < |rest| ==> rest[j] == fields[j + 1];
      }
      FieldEntriesDistinct(rest);
      FieldEntriesAvoid(rest, fields[0].name);
      var head := if fields[0].issues == [] then [] else [(fields[0].name, ErrorDict(fields[0].issues))];
      PrependDistinct(head, FieldEntries(rest), fields[0].name);
    }
  }

  /** No entry is keyed by a name that no field has. */
  lemma {:induction false} FieldEntriesAvoid(fields: seq<FieldIssues>, key: string)
    requires forall j :: 0 <= j < |fields| ==> fields[j].name != key
    ensures forall i :: 0 <= i < |FieldEntries(fields)| ==> FieldEntries(fields)[i].0 != key
  {
    if fields != [] {
      var rest := fields[1..];
      assert forall j :: 0 <= j < |rest| ==> rest[j] == fields[j + 1];
      FieldEntriesAvoid(rest, key);
      var tail := FieldEntries(rest);
      if fields[0].issues == [] {
        assert FieldEntries(fields) == tail;
      } else {
        var entries := FieldEntries(fields);
        assert entries == [(fields[0].name, ErrorDict(fields[0].issues))] + tail;
        assert forall i :: 1 <= i < |entries| ==> entries[i] == tail[i - 1];
      }
    }
  }

  lemma PrependDistinct(head: seq<Entry>, tail: seq<Entry>, key: string)
    requires |head| <= 1 && (head != [] ==> head[0].0 == key)
    requires DistinctKeys(tail)
    requires forall i :: 0 <= i < |tail| ==> tail[i].0 != key
    ensures DistinctKeys(head + tail)
  {
    assert forall i :: 0 <= i < |tail| ==> (head + tail)[|head| + i] == tail[i];
  }

  /** The entries `format()` gives for a well-named object have distinct keys. */
  lemma FormatDistinct(top: seq<string>, fields: seq<FieldIssues>)
    requires WellNamed(fields)
    ensures DistinctKeys(Format(top, fields))
  {
    var entries := Format(top, fields);
    FieldEntriesDistinct(fields);
    assert forall i :: 1 <= i < |entries| ==> entries[i] == FieldEntries(fields)[i - 1];
  }

  /** A field with issues is reported with its first issue. */
  lemma FormattedFieldError(top: seq<string>, fields: seq<FieldIssues>, j: nat)
    requires WellNamed(fields)
    requires j < |fields| && fields[j].issues != []
    ensures fields[j].name in MapZodErrorSpec(Format(top, fields))
    ensures MapZodErrorSpec(Format(top, fields))[fields[j].name] == Some(fields[j].issues[0])
  {
    var entries := Format(top, fields);
    var tail := FieldEntries(fields);
    FormatDistinct(top, fields);
    FieldEntriesMembers(fields);
    assert fields[j] in fields;
    var i :| 0 <= i < |tail| && tail[i] == (fields[j].name, ErrorDict(fields[j].issues));
    assert entries[i + 1] == tail[i];
    MapZodErrorValue(entries, i + 1);
  }

  /** Every key of the error map is `_errors` or the name of a field that has issues. */
  lemma FormattedKey(top: seq<string>, fields: seq<FieldIssues>, k: string)
    requires k in MapZodErrorSpec(Format(top, fields))
    ensures k == ErrorsKey || exists j :: 0 <= j < |fields| && fields[j].name == k && fields[j].issues != []
  {
    var entries := Format(top, fields);
    var tail := FieldEntries(fields);
    MapZodErrorKeys(entries);
    FieldEntriesMembers(fields);
    var i :| 0 <= i < |entries| && entries[i].0 == k && !entries[i].1.Falsy?;
    if i > 0 {
      assert entries[i] == tail[i - 1];
      assert tail[i - 1] in tail;
      var f :| f in fields && f.issues != [] && tail[i - 1] == (f.name, ErrorDict(f.issues));
      var j :| 0 <= j < |fields| && fields[j] == f;
    }
  }

  /**
   * What the error map of a failed object parse holds: `_errors` with the
   * first object-level issue (or undefined), and each field's first issue
   * for exactly the fields that have one.
   */
  lemma FormattedErrors(top: seq<string>, fields: seq<FieldIssues>)
    requires WellNamed(fields)
    ensures ErrorsKey in MapZodErrorSpec(Format(top, fields))
    ensures MapZodErrorSpec(Format(top, fields))[ErrorsKey] == First(top)
    ensures forall j :: 0 <= j < |fields| ==>
      (fields[j].name in MapZodErrorSpec(Format(top, fields)) <==> fields[j].issues != [])
    ensures forall j :: 0 <= j < |fields| && fields[j].issues != [] ==>
      MapZodErrorSpec(Format(top, fields))[fields[j].name] == Some(fields[j].issues[0])
    ensures forall k :: k in MapZodErrorSpec(Format(top, fields)) ==>
      k == ErrorsKey || exists j :: 0 <= j < |fields| && fields[j].name == k
  {
    var m := MapZodErrorSpec(Format(top, fields));
    FormatDistinct(top, fields);
    MapZodErrorValue(Format(top, fields), 0);
    forall j | 0 <= j < |fields| && fields[j].issues != []
      ensures fields[j].name in m && m[fields[j].name] == Some(fields[j].issues[0])
    {
      FormattedFieldError(top, fields, j);
    }
    forall k | k in m
      ensures k == ErrorsKey || exists j :: 0 <= j < |fields| && fields[j].name == k
    {
      FormattedKey(top, fields, k);
    }
    forall j | 0 <= j < |fields| && fields[j].name in m
      ensures fields[j].issues != []
    {
      FormattedKey(top, fields, fields[j].name);
    }
  }

  /**
   * A parse fails when there is an object-level issue or a field with an
   * issue, and then the map it formats to holds that issue's message.
   */
  lemma FormattedHasMessage(top: seq<string>, fields: seq<FieldIssues>)
    requires WellNamed(fields)
    requires top != [] || !AllPassed(fields)
    ensures HasMessage(MapZodErrorSpec(Format(top, fields)))
  {
    FormattedErrors(top, fields);
    var m := MapZodErrorSpec(Format(top, fields));
    if top != [] {
      assert ErrorsKey in m && m[ErrorsKey].Some?;
    } else {
      var j :| 0 <= j < |fields| && fields[j].issues != [];
      assert fields[j].name in m && m[fields[j].name].Some?;
    }
  }

  /** The caster `cast` uses by default: `''` reads as missing, other strings are JSON-parsed where they parse. */
  function SafeJSONParse(val: JsValue, parse: string -> Option<JsValue>): (r: JsValue)
    ensures !val.Str? ==> r == val
    ensures val == Str("") ==> r == Undefined
    ensures val.Str? && val.s != "" && parse(val.s).None? ==> r == val
    ensures val.Str? && val.s != "" && parse(val.s).Some? ==> r == parse(val.s).value
  {
    match val
    case Str(s) =>
      if s == "" then Undefined
      else (match parse(s) case Some(parsed) => parsed case None => val)
    case _ => val
  }

  /** `cast(schema, caster)`: the caster preprocesses the value before the schema sees it. */
  function Cast<T>(schema: JsValue -> T, caster: JsValue -> JsValue): (c: JsValue -> T)
    ensures forall v :: caster(v) == v ==> c(v) == schema(v)
  {
    v => schema(caster(v))
  }

  /** The default caster bound to one JSON parser. */
  function DefaultCaster(parse: string -> Option<JsValue>): (c: JsValue -> JsValue)
    ensures forall v: JsValue :: !v.Str? ==> c(v) == v
    ensures c(Str("")) == Undefined
  {
    v => SafeJSONParse(v, parse)
  }

  /** An empty string is read as a missing value, so a string schema reports it as required. */
  lemma CastEmptyStringIsMissing(parse: string -> Option<JsValue>)
    ensures SafeJSONParse(Str(""), parse) == Undefined
    ensures Cast(ParseString, DefaultCaster(parse))(Str("")) == Err([RequiredMessage])
  {
  }

  /** A value that is not a string reaches the schema unchanged. */
  lemma CastPassesNonString<T>(schema: JsValue -> T, parse: string -> Option<JsValue>, v: JsValue)
    requires !v.Str?
    ensures SafeJSONParse(v, parse) == v
    ensures Cast(schema, DefaultCaster(parse))(v) == schema(v)
  {
  }

  /** A non-empty string the parser rejects reaches the schema unchanged, so a string schema keeps it. */
  lemma CastKeepsUnparsable(parse: string -> Option<JsValue>, s: string)
    requires s != "" && parse(s) == None
    ensures SafeJSONParse(Str(s), parse) == Str(s)
    ensures Cast(ParseString, DefaultCaster(parse))(Str(s)) == Ok(s)
  {
  }

  /** A non-empty string the parser accepts reaches the schema as the parsed value. */
  lemma CastUsesParsed<T>(schema: JsValue -> T, parse: string -> Option<JsValue>, s: string, parsed: JsValue)
    requires s != "" && parse(s) == Some(parsed)
    ensures SafeJSONParse(Str(s), parse) == parsed
    ensures Cast(schema, DefaultCaster(parse))(Str(s)) == schema(parsed)
  {
  }
}
