/** The schema comparison of tools/ojos-service/src/compatibility.rs, against the meaning of
    the compared JSON Schema keywords (sections 6.1 to 6.5 of JSON Schema Validation 2020-12,
    and `properties` and `additionalProperties` of section 10.3.2 of JSON Schema Core 2020-12). */
module SchemaCompat {
  import opened Basics

  datatype Value =
    | Null
    | Bool(flag: bool)
    | Number(number: real)
    | Text(text: string)
    | Array(items: seq<Value>)
    | Object(fields: map<string, Value>)

  /** A schema, one field for each compared keyword as the document gives it. The comparison
      finds no keyword in a boolean schema; `denies` tells that it is the schema `false`. */
  datatype Schema = Schema(
    kind: Option<Value>,
    choices: Option<Value>,
    minimum: Option<Value>, minLength: Option<Value>, minItems: Option<Value>,
    maximum: Option<Value>, maxLength: Option<Value>, maxItems: Option<Value>,
    pattern: Option<Value>,
    additionalProperties: Option<bool>,
    required: Option<Value>,
    denies: bool,
    properties: map<string, Schema>)

  // ----- projections ----------------------------------------------------------------

  function AsNumber(v: Option<Value>): Option<real> {
    if v.Some? && v.value.Number? then Some(v.value.number) else None
  }

  function ValueSet(v: Option<Value>): set<Value> {
    if v.Some? && v.value.Array? then set x | x in v.value.items else {}
  }

  function StringSet(v: Option<Value>): set<string> {
    if v.Some? && v.value.Array? then set x | x in v.value.items && x.Text? :: x.text else {}
  }

  // ----- the meaning of a schema ------------------------------------------------------

  predicate HasType(name: string, v: Value) {
    match v
    case Null => name == "null"
    case Bool(_) => name == "boolean"
    case Number(n) => name == "number" || (name == "integer" && n == n.Floor as real)
    case Text(_) => name == "string"
    case Array(_) => name == "array"
    case Object(_) => name == "object"
  }

  predicate KindOk(kind: Option<Value>, v: Value) {
    match kind
    case Some(Text(name)) => HasType(name, v)
    case Some(Array(names)) => exists n :: n in names && n.Text? && HasType(n.text, v)
    case _ => true
  }

  predicate Above(bound: Option<Value>, x: real) {
    bound.Some? && bound.value.Number? ==> bound.value.number <= x
  }

  predicate Below(bound: Option<Value>, x: real) {
    bound.Some? && bound.value.Number? ==> x <= bound.value.number
  }

  predicate BoundsOk(s: Schema, v: Value) {
    match v
    case Number(n) => Above(s.minimum, n) && Below(s.maximum, n)
    case Text(t) => Above(s.minLength, |t| as real) && Below(s.maxLength, |t| as real)
    case Array(items) => Above(s.minItems, |items| as real) && Below(s.maxItems, |items| as real)
    case _ => true
  }

  /** `matches(p, t)` is the regular expression engine. */
  predicate PatternOk(pattern: Option<Value>, v: Value, matches: (string, string) -> bool) {
    pattern.Some? && pattern.value.Text? && v.Text? ==> matches(pattern.value.text, v.text)
  }

  /** Keywords that look at the value itself. */
  predicate FlatOk(s: Schema, v: Value, matches: (string, string) -> bool) {
    && !s.denies
    && KindOk(s.kind, v)
    && (s.choices.Some? && s.choices.value.Array? ==> v in s.choices.value.items)
    && BoundsOk(s, v)
    && PatternOk(s.pattern, v, matches)
    && (v.Object? && s.required.Some? && s.required.value.Array? ==>
          forall x :: x in s.required.value.items && x.Text? ==> x.text in v.fields)
    && (v.Object? && s.additionalProperties == Some(false) ==> v.fields.Keys <= s.properties.Keys)
  }

  predicate Accepts(s: Schema, v: Value, matches: (string, string) -> bool)
    decreases s
  {
    && FlatOk(s, v, matches)
    && (v.Object? ==> forall k :: k in s.properties && k in v.fields ==> Accepts(s.properties[k], v.fields[k], matches))
  }

  // ----- the comparison ---------------------------------------------------------------

  datatype Reason =
    | ChangedType | NarrowedEnum | IntroducedEnum
    | IncreasedMinimum | IncreasedMinLength | IncreasedMinItems
    | DecreasedMaximum | DecreasedMaxLength | DecreasedMaxItems
    | ChangedPattern | DisabledAdditionalProperties
    | AddedRequired(field: string) | RemovedField(field: string)

  datatype Break = Break(at: seq<string>, reason: Reason)

  /** `compare_lower_bound`: the new bound is present and exceeds the old one, if any. */
  predicate Raised(old_: Option<Value>, new_: Option<Value>) {
    var o, n := AsNumber(old_), AsNumber(new_);
    n.Some? && (o.None? || n.value > o.value)
  }

  predicate Lowered(old_: Option<Value>, new_: Option<Value>) {
    var o, n := AsNumber(old_), AsNumber(new_);
    n.Some? && (o.None? || n.value < o.value)
  }

  /** A bound is reported exactly if some number within the old bound is outside the new one. */
  lemma ReportedIffTighter(a: Option<Value>, b: Option<Value>)
    ensures Raised(a, b) <==> exists x :: Above(a, x) && !Above(b, x)
    ensures Lowered(a, b) <==> exists x :: Below(a, x) && !Below(b, x)
  {
    if Raised(a, b) {
      var x := if AsNumber(a).Some? then AsNumber(a).value else AsNumber(b).value - 1.0;
      assert Above(a, x) && !Above(b, x);
    }
    if Lowered(a, b) {
      var x := if AsNumber(a).Some? then AsNumber(a).value else AsNumber(b).value + 1.0;
      assert Below(a, x) && !Below(b, x);
    }
  }

  /** `common_schema_breaks`. */
  function CommonReasons(a: Schema, b: Schema): set<Reason> {
    var olds, news := ValueSet(a.choices), ValueSet(b.choices);
    When(a.kind != b.kind, ChangedType)
    + When(olds != {} && news != {} && !(olds <= news), NarrowedEnum)
    + When(olds == {} && news != {}, IntroducedEnum)
    + When(Raised(a.minimum, b.minimum), IncreasedMinimum)
    + When(Raised(a.minLength, b.minLength), IncreasedMinLength)
    + When(Raised(a.minItems, b.minItems), IncreasedMinItems)
    + When(Lowered(a.maximum, b.maximum), DecreasedMaximum)
    + When(Lowered(a.maxLength, b.maxLength), DecreasedMaxLength)
    + When(Lowered(a.maxItems, b.maxItems), DecreasedMaxItems)
    + When(a.pattern != b.pattern && b.pattern.Some?, ChangedPattern)
    + When(a.additionalProperties != Some(false) && b.additionalProperties == Some(false), DisabledAdditionalProperties)
  }

  /** What `input_schema_breaks` or `response_schema_breaks` reports about one schema,
      nested schemas aside. */
  function OwnReasons(a: Schema, b: Schema, input: bool): set<Reason> {
    CommonReasons(a, b)
    + (if input then set f | f in StringSet(b.required) - StringSet(a.required) :: AddedRequired(f) else {})
    + (set f | f in a.properties.Keys - b.properties.Keys :: RemovedField(f))
  }

  /** `input_schema_breaks` and `response_schema_breaks` with `recurse_properties`. */
  function Breaks(a: Schema, b: Schema, at: seq<string>, input: bool): set<Break>
    decreases a
  {
    (set r | r in OwnReasons(a, b, input) :: Break(at, r))
    + set f, x | f in a.properties && f in b.properties
                 && x in Breaks(a.properties[f], b.properties[f], at + [f], input) :: x
  }

  /** `b` may replace `a`: no break at any depth. */
  ghost predicate Replaces(a: Schema, b: Schema, input: bool)
    decreases a
  {
    && OwnReasons(a, b, input) == {}
    && forall f :: f in a.properties && f in b.properties ==> Replaces(a.properties[f], b.properties[f], input)
  }

  /** The reported list is empty exactly when there is no break at any depth, wherever
      the comparison started. */
  lemma {:induction false} NoBreaksIffReplaces(a: Schema, b: Schema, at: seq<string>, input: bool)
    ensures Breaks(a, b, at, input) == {} <==> Replaces(a, b, input)
    decreases a
  {
    forall f | f in a.properties && f in b.properties
      ensures Breaks(a.properties[f], b.properties[f], at + [f], input) == {}
              <==> Replaces(a.properties[f], b.properties[f], input)
    {
      NoBreaksIffReplaces(a.properties[f], b.properties[f], at + [f], input);
    }
    if Replaces(a, b, input) {
      assert Breaks(a, b, at, input) == {};
    } else if OwnReasons(a, b, input) != {} {
      var r :| r in OwnReasons(a, b, input);
      assert Break(at, r) in Breaks(a, b, at, input);
    } else {
      var f :| f in a.properties && f in b.properties && !Replaces(a.properties[f], b.properties[f], input);
      var x :| x in Breaks(a.properties[f], b.properties[f], at + [f], input);
      assert x in Breaks(a, b, at, input);
    }
  }

  /** No reason of its own, spelled out keyword by keyword. */
  ghost predicate Widens(a: Schema, b: Schema, input: bool) {
    && a.kind == b.kind
    && (ValueSet(b.choices) != {} ==> ValueSet(a.choices) != {} && ValueSet(a.choices) <= ValueSet(b.choices))
    && !Raised(a.minimum, b.minimum) && !Raised(a.minLength, b.minLength) && !Raised(a.minItems, b.minItems)
    && !Lowered(a.maximum, b.maximum) && !Lowered(a.maxLength, b.maxLength) && !Lowered(a.maxItems, b.maxItems)
    && (b.pattern.Some? ==> a.pattern == b.pattern)
    && (b.additionalProperties == Some(false) ==> a.additionalProperties == Some(false))
    && (input ==> StringSet(b.required) <= StringSet(a.required))
    && a.properties.Keys <= b.properties.Keys
  }

  lemma ReasonsSpelledOut(a: Schema, b: Schema, input: bool)
    ensures OwnReasons(a, b, input) == {} <==> Widens(a, b, input)
  {
    var all := OwnReasons(a, b, input);
    if all == {} {
      var olds, news := ValueSet(a.choices), ValueSet(b.choices);
      assert ChangedType !in all && NarrowedEnum !in all && IntroducedEnum !in all;
      assert IncreasedMinimum !in all && IncreasedMinLength !in all && IncreasedMinItems !in all;
      assert DecreasedMaximum !in all && DecreasedMaxLength !in all && DecreasedMaxItems !in all;
      assert ChangedPattern !in all && DisabledAdditionalProperties !in all;
      forall f | input && f in StringSet(b.required) ensures f in StringSet(a.required) {
        assert AddedRequired(f) !in all;
      }
      forall f | f in a.properties ensures f in b.properties {
        assert RemovedField(f) !in all;
      }
    } else {
      var r :| r in all;
    }
  }

  // ----- soundness --------------------------------------------------------------------

  /** Every enumeration offers at least one value, and no schema is `false`. */
  ghost predicate Inhabited(s: Schema)
    decreases s
  {
    && s.choices != Some(Array([])) && !s.denies
    && forall f :: f in s.properties ==> Inhabited(s.properties[f])
  }

  /** Fields that only the new schema declares carry values the new schema accepts there. */
  ghost predicate NewFieldsOk(a: Schema, b: Schema, v: Value, matches: (string, string) -> bool)
    decreases a
  {
    v.Object? ==> forall k :: k in b.properties && k in v.fields ==>
      if k in a.properties then NewFieldsOk(a.properties[k], b.properties[k], v.fields[k], matches)
      else Accepts(b.properties[k], v.fields[k], matches)
  }

  /** The value meets no empty enumeration and no `false` schema where both schemas look. */
  ghost predicate NothingDenied(a: Schema, b: Schema, v: Value)
    decreases a
  {
    && b.choices != Some(Array([])) && !b.denies
    && (v.Object? ==> forall k :: k in a.properties && k in b.properties && k in v.fields ==>
          NothingDenied(a.properties[k], b.properties[k], v.fields[k]))
  }

  lemma FlatSound(a: Schema, b: Schema, v: Value, matches: (string, string) -> bool)
    requires Widens(a, b, true) && FlatOk(a, v, matches)
    ensures FlatOk(b, v, matches) <==> b.choices != Some(Array([])) && !b.denies
  {
    if b.choices.Some? && b.choices.value.Array? && b.choices != Some(Array([])) {
      assert b.choices.value.items[0] in ValueSet(b.choices);
      var x :| x in ValueSet(a.choices);
      assert v in ValueSet(a.choices) && v in ValueSet(b.choices);
    }
    if v.Object? && b.required.Some? && b.required.value.Array? {
      forall x | x in b.required.value.items && x.Text? ensures x.text in v.fields {
        assert x.text in StringSet(b.required) && x.text in StringSet(a.required);
      }
    }
  }

  /** Substitutability of schemas, exactly. When nothing is reported, a value the old schema
      accepts is accepted by the new one if and only if the fields the new schema added are,
      and the value meets no empty enumeration and no `false` schema. */
  lemma {:induction false} InputSoundExactly(a: Schema, b: Schema, v: Value, matches: (string, string) -> bool)
    requires Replaces(a, b, true) && Accepts(a, v, matches)
    ensures Accepts(b, v, matches) <==> NewFieldsOk(a, b, v, matches) && NothingDenied(a, b, v)
    decreases a
  {
    ReasonsSpelledOut(a, b, true);
    FlatSound(a, b, v, matches);
    if v.Object? {
      forall k | k in a.properties && k in v.fields
        ensures Accepts(b.properties[k], v.fields[k], matches) <==>
                && NewFieldsOk(a.properties[k], b.properties[k], v.fields[k], matches)
                && NothingDenied(a.properties[k], b.properties[k], v.fields[k])
      {
        InputSoundExactly(a.properties[k], b.properties[k], v.fields[k], matches);
      }
    }
  }

  lemma {:induction false} InhabitedDeniesNothing(a: Schema, b: Schema, v: Value)
    requires Inhabited(b)
    ensures NothingDenied(a, b, v)
    decreases a
  {
    if v.Object? {
      forall k | k in a.properties && k in b.properties && k in v.fields
        ensures NothingDenied(a.properties[k], b.properties[k], v.fields[k])
      {
        InhabitedDeniesNothing(a.properties[k], b.properties[k], v.fields[k]);
      }
    }
  }

  /** With inhabited schemas, only the added fields matter. */
  lemma InputSound(a: Schema, b: Schema, v: Value, matches: (string, string) -> bool)
    requires Replaces(a, b, true) && Inhabited(b)
    requires Accepts(a, v, matches)
    ensures Accepts(b, v, matches) <==> NewFieldsOk(a, b, v, matches)
  {
    InputSoundExactly(a, b, v, matches);
    InhabitedDeniesNothing(a, b, v);
  }

  /** The value uses only fields the schema declares, at every depth. */
  ghost predicate DeclaredOnly(s: Schema, v: Value)
    decreases s
  {
    v.Object? ==> forall k :: k in v.fields ==> k in s.properties && DeclaredOnly(s.properties[k], v.fields[k])
  }

  /** Every object schema is closed. */
  ghost predicate Closed(s: Schema)
    decreases s
  {
    s.additionalProperties == Some(false) && forall f :: f in s.properties ==> Closed(s.properties[f])
  }

  lemma {:induction false} DeclaredFieldsAreOk(a: Schema, b: Schema, v: Value, matches: (string, string) -> bool)
    requires DeclaredOnly(a, v)
    ensures NewFieldsOk(a, b, v, matches)
    decreases a
  {
    if v.Object? {
      forall k | k in a.properties && k in b.properties && k in v.fields
        ensures NewFieldsOk(a.properties[k], b.properties[k], v.fields[k], matches)
      {
        DeclaredFieldsAreOk(a.properties[k], b.properties[k], v.fields[k], matches);
      }
    }
  }

  lemma {:induction false} ClosedMeansDeclared(a: Schema, v: Value, matches: (string, string) -> bool)
    requires Closed(a) && Accepts(a, v, matches)
    ensures DeclaredOnly(a, v)
    decreases a
  {
    if v.Object? {
      forall k | k in v.fields ensures k in a.properties && DeclaredOnly(a.properties[k], v.fields[k]) {
        ClosedMeansDeclared(a.properties[k], v.fields[k], matches);
      }
    }
  }

  /** A compatible replacement of a closed schema accepts everything the old one accepted. */
  lemma ClosedInputSound(a: Schema, b: Schema, v: Value, matches: (string, string) -> bool)
    requires Closed(a) && Replaces(a, b, true) && Inhabited(b)
    requires Accepts(a, v, matches)
    ensures Accepts(b, v, matches)
  {
    ClosedMeansDeclared(a, v, matches);
    DeclaredFieldsAreOk(a, b, v, matches);
    InputSound(a, b, v, matches);
  }

  const ANY := Schema(None, None, None, None, None, None, None, None, None, None, None, false, map[])

  /** An open object may carry a field that a new version starts to constrain, and the
      comparison does not report that: here an accepted value becomes unacceptable. */
  lemma OpenObjectCanNarrow(matches: (string, string) -> bool)
    ensures var strict := ANY.(properties := map["x" := ANY.(kind := Some(Text("string")))]);
            var value := Object(map["x" := Null]);
            && Replaces(ANY, strict, true) && Inhabited(strict)
            && Accepts(ANY, value, matches) && !Accepts(strict, value, matches)
  {
    var strict := ANY.(properties := map["x" := ANY.(kind := Some(Text("string")))]);
    ReasonsSpelledOut(ANY, strict, true);
    assert !HasType("string", Null);
    assert "x" in strict.properties;
  }

  /** An empty enumeration counts as no enumeration, so it slips in unreported although it
      rejects every value. */
  lemma EmptyEnumSlipsIn(v: Value, matches: (string, string) -> bool)
    ensures var none := ANY.(choices := Some(Array([])));
            Replaces(ANY, none, true) && Accepts(ANY, v, matches) && !Accepts(none, v, matches)
  {
    ReasonsSpelledOut(ANY, ANY.(choices := Some(Array([]))), true);
  }

  /** A property schema replaced by `false` is not reported although it rejects every value. */
  lemma FalseSchemaSlipsIn(v: Value, matches: (string, string) -> bool)
    ensures var before := ANY.(properties := map["x" := ANY]);
            var after := ANY.(properties := map["x" := ANY.(denies := true)]);
            && Replaces(before, after, true)
            && Accepts(before, Object(map["x" := v]), matches) && !Accepts(after, Object(map["x" := v]), matches)
  {
    var before := ANY.(properties := map["x" := ANY]);
    var after := ANY.(properties := map["x" := ANY.(denies := true)]);
    ReasonsSpelledOut(before, after, true);
    ReasonsSpelledOut(ANY, ANY.(denies := true), true);
    assert "x" in after.properties && !Accepts(after.properties["x"], v, matches);
  }

  // ----- order ------------------------------------------------------------------------

  lemma {:induction false} ReplacesReflexive(a: Schema, input: bool)
    ensures Replaces(a, a, input)
    decreases a
  {
    ReasonsSpelledOut(a, a, input);
    forall f | f in a.properties ensures Replaces(a.properties[f], a.properties[f], input) {
      ReplacesReflexive(a.properties[f], input);
    }
  }

  lemma {:induction false} ReplacesTransitive(a: Schema, b: Schema, c: Schema, input: bool)
    requires Replaces(a, b, input) && Replaces(b, c, input)
    ensures Replaces(a, c, input)
    decreases a
  {
    ReasonsSpelledOut(a, b, input);
    ReasonsSpelledOut(b, c, input);
    ReasonsSpelledOut(a, c, input);
    forall f | f in a.properties && f in c.properties ensures Replaces(a.properties[f], c.properties[f], input) {
      ReplacesTransitive(a.properties[f], b.properties[f], c.properties[f], input);
    }
  }

  // ----- responses --------------------------------------------------------------------

  /** The schema reached by following property names. */
  function Follow(s: Schema, path: seq<string>): Option<Schema> {
    if path == [] then Some(s)
    else if path[0] in s.properties then Follow(s.properties[path[0]], path[1..])
    else None
  }

  /** What is reported names the place it is found at: a break lies at a property path exactly if
      the schemas there differ for that reason. */
  lemma BreaksAreLocated(a: Schema, b: Schema, at: seq<string>, input: bool, x: Break)
    ensures x in Breaks(a, b, at, input) <==> exists path :: LocatedAt(a, b, at, input, x, path)
  {
    hide LocatedAt, Breaks;
    if x in Breaks(a, b, at, input) { var path := FindBreak(a, b, at, input, x); }
    if path :| LocatedAt(a, b, at, input, x, path) { LocatedIsReported(a, b, at, input, x, path); }
  }

  lemma {:induction false} FindBreak(a: Schema, b: Schema, at: seq<string>, input: bool, x: Break) returns (path: seq<string>)
    requires x in Breaks(a, b, at, input)
    ensures LocatedAt(a, b, at, input, x, path)
    decreases a
  {
    hide OwnReasons;
    if x.at == at && x.reason in OwnReasons(a, b, input) {
      path := [];
      assert at + path == at;
    } else {
      var f :| f in a.properties && f in b.properties && x in Breaks(a.properties[f], b.properties[f], at + [f], input);
      var rest := FindBreak(a.properties[f], b.properties[f], at + [f], input, x);
      path := [f] + rest;
      assert path[1..] == rest && at + [f] + rest == at + path;
    }
  }

  lemma {:induction false} LocatedIsReported(a: Schema, b: Schema, at: seq<string>, input: bool, x: Break, path: seq<string>)
    requires LocatedAt(a, b, at, input, x, path)
    ensures x in Breaks(a, b, at, input)
    decreases path
  {
    hide OwnReasons;
    if path == [] {
      assert x == Break(at, x.reason);
    } else {
      var f := path[0];
      assert at + path == at + [f] + path[1..];
      LocatedIsReported(a.properties[f], b.properties[f], at + [f], input, x, path[1..]);
    }
  }

  ghost predicate LocatedAt(a: Schema, b: Schema, at: seq<string>, input: bool, x: Break, path: seq<string>) {
    && x.at == at + path && Follow(a, path).Some? && Follow(b, path).Some?
    && x.reason in OwnReasons(Follow(a, path).value, Follow(b, path).value, input)
  }

  /** Every property path a client could read stays readable, with the same type. */
  lemma {:induction false} ResponsePathsSurvive(a: Schema, b: Schema, path: seq<string>)
    requires Replaces(a, b, false)
    requires Follow(a, path).Some?
    ensures Follow(b, path).Some?
    ensures Follow(a, path).value.kind == Follow(b, path).value.kind
    ensures Replaces(Follow(a, path).value, Follow(b, path).value, false)
    decreases path
  {
    ReasonsSpelledOut(a, b, false);
    if path != [] {
      ResponsePathsSurvive(a.properties[path[0]], b.properties[path[0]], path[1..]);
    }
  }
}
