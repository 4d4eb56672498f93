/** internal/parser/config/validator.go: the schema validator. Each struct
    field's `validate` tag is a ","-separated list of rules, each a name and an
    optional "="-value: `required` demands that the field's key path is defined
    in the TOML document, `default` fills an undefined scalar in place, and
    `min`, `max` and `enum` are looked up in the table of schema functions.
    Structs and maps are descended into; a map's struct pointers are validated
    with their key pushed onto the path.

    Reflection is replaced by an explicit value tree; setting a field in place
    is modelled by returning the updated tree. The TOML metadata is the set of
    key paths the document defines. A panic of the Go code is the outcome
    Panicked. */
module Schema {
  import opened Wrappers
  import opened Text
  import Strconv

  /** A value as reflection sees it. Ptr is a non-nil pointer to its target,
      Nil a nil pointer, Iface a value of interface kind holding its target
      (Nil when the interface is nil), Other any kind the validator does not
      handle, with its kind's name. */
  datatype Value =
    | Bool(b: bool)
    | Int(i: int)
    | Str(s: string)
    | Struct(fields: seq<Field>)
    | Map(entries: seq<Entry>)
    | Ptr(target: Value)
    | Nil
    | Iface(target: Value)
    | Other(kind: string)

  /** A struct field: its Go name, its `toml` tag, its `validate` tag and its
      value. */
  datatype Field = Field(name: string, tomlTag: string, tag: string, val: Value)

  /** A map entry: its key and its value. */
  datatype Entry = Entry(key: string, val: Value)

  /** The key paths the decoded document defines (toml.MetaData.IsDefined). */
  type MetaData = set<seq<string>>

  /** How a validation ends: every rule passed, a rule failed with an error,
      or the Go code panicked. */
  datatype Status = Passed | Failed(msg: string) | Panicked

  const DefaultRule: string := "default"
  const MinRule: string := "min"
  const MaxRule: string := "max"
  const EnumRule: string := "enum"
  const RequiredRule: string := "required"

  /** The names the schemaFunctions table holds. */
  const SchemaFunctions: set<string> := {MinRule, MaxRule, EnumRule}

  const MinMalformed: string := "Malformed schema. min must be a number"
  const MaxMalformed: string := "Malformed schema. max must be a number"
  /** The error of an unparsable default; the int case reuses the boolean text. */
  const BadDefault: string := "Malformed schema. Default doesnt follow the field type: boolean\n"
  const UnknownType: string := "Malformed schema. Unknown type. cant match default value with given field type "

  /** reflect.Kind's name, as `%v` writes it. */
  function KindName(v: Value): string
  {
    match v
    case Bool(_) => "bool"
    case Int(_) => "int"
    case Str(_) => "string"
    case Struct(_) => "struct"
    case Map(_) => "map"
    case Ptr(_) => "ptr"
    case Nil => "ptr"
    case Iface(_) => "interface"
    case Other(k) => k
  }

  /** What Interface() hands to a type assertion: the content of an
      interface, any other value itself. */
  function Dynamic(v: Value): Value
  {
    if v.Iface? then v.target else v
  }

  /** Values a default can be stored in by handle of their kind. */
  predicate Scalar(v: Value)
  {
    v.Bool? || v.Int? || v.Str?
  }

  /** Both values are of the same kind, and a value that is not a scalar is
      the very same value. */
  predicate SameKind(a: Value, b: Value)
  {
    (a.Bool? <==> b.Bool?) && (a.Int? <==> b.Int?) && (a.Str? <==> b.Str?) && (!Scalar(a) ==> a == b)
  }

  /** handleMin: a bound that is not a number fails with the malformed-schema
      error without looking at the value; otherwise it passes iff the bound
      is at most the value, which must be an int or an interface holding
      one (None: the type assertion panics). */
  function HandleMin(field: string, tagVal: string, value: Value): (r: Option<(bool, string)>)
    ensures Strconv.Atoi(tagVal).None? ==> r == Some((false, MinMalformed))
    ensures Strconv.Atoi(tagVal).Some? ==>
      (r.Some? <==> Dynamic(value).Int?) && (r.Some? ==> r.value.0 == (Strconv.Atoi(tagVal).value <= Dynamic(value).i))
    ensures Strconv.Atoi(tagVal).Some? && r.Some? ==> r.value.1 == field + " must be less than " + tagVal
  {
    var d := Dynamic(value);
    match Strconv.Atoi(tagVal)
    case None => Some((false, MinMalformed))
    case Some(num) =>
      if d.Int? then Some((num <= d.i, field + " must be less than " + tagVal)) else None
  }

  /** handleMax: the same with the bound at least the value. */
  function HandleMax(field: string, tagVal: string, value: Value): (r: Option<(bool, string)>)
    ensures Strconv.Atoi(tagVal).None? ==> r == Some((false, MaxMalformed))
    ensures Strconv.Atoi(tagVal).Some? ==>
      (r.Some? <==> Dynamic(value).Int?) && (r.Some? ==> r.value.0 == (Strconv.Atoi(tagVal).value >= Dynamic(value).i))
    ensures Strconv.Atoi(tagVal).Some? && r.Some? ==> r.value.1 == field + " must be less than " + tagVal
  {
    var d := Dynamic(value);
    match Strconv.Atoi(tagVal)
    case None => Some((false, MaxMalformed))
    case Some(num) =>
      if d.Int? then Some((num >= d.i, field + " must be less than " + tagVal)) else None
  }

  /** handleEnum: the alternatives are the "|"-separated pieces of the tag
      value; a string value passes iff it is one of them, and the error
      lists them as `%v` prints a slice. */
  function HandleEnum(field: string, tagVal: string, value: Value): (r: Option<(bool, string)>)
    ensures r.Some? <==> Dynamic(value).Str?
    ensures r.Some? ==> (r.value.0 <==> exists k :: 0 <= k < |Split(tagVal, '|')| && Split(tagVal, '|')[k] == Dynamic(value).s)
    ensures r.Some? ==> r.value.1 == field + " must be in [" + Join(Split(tagVal, '|'), ' ') + "]"
  {
    var vals := Split(tagVal, '|');
    var d := Dynamic(value);
    if d.Str? then Some((d.s in vals, field + " must be in [" + Join(vals, ' ') + "]")) else None
  }

  /** A rule's name and value: the first two "="-separated pieces, the value
      "" when there is no "=". */
  function ParseRule(rule: string): (r: (string, string))
    ensures '=' !in r.0 && '=' !in r.1
    ensures |r.0| <= |rule| && r.0 == rule[..|r.0|] && (|r.0| == |rule| || rule[|r.0|] == '=')
  {
    SplitFirst(rule, '=');
    var data := Split(rule, '=');
    (data[0], if |data| > 1 then data[1] else "")
  }

  /** Rule parsing reads back a name and a value written as "name=value",
      and a bare name as that name with the empty value. */
  lemma ParseRuleOf(name: string, value: string)
    requires '=' !in name && '=' !in value
    ensures ParseRule(name + "=" + value) == (name, value)
    ensures ParseRule(name) == (name, "")
  {
    SplitWithoutSep(name, '=');
    SplitAtSep(name, value, '=');
    SplitWithoutSep(value, '=');
    assert name + "=" + value == name + ['='] + value;
    assert Split(name + "=" + value, '=') == [name, value];
  }

  /** What one rule does: continue with the (possibly defaulted) value, stop
      with an error, or panic. */
  datatype RuleStep = Next(v: Value) | Stop(msg: string) | Crash

  /** The switch on one rule's name, for the field `name` whose key path is
      defined or not. A name outside the table of schema functions calls a
      nil function. */
  function ApplyRule(name: string, rule: (string, string), v: Value, defined: bool): (s: RuleStep)
    ensures s.Next? ==> SameKind(v, s.v)
    ensures rule.0 == RequiredRule ==>
      s == if defined then Next(v) else Stop(name + " is required")
    ensures rule.0 == DefaultRule && defined ==> s == Next(v)
    ensures rule.0 == DefaultRule && !defined && !Scalar(v) ==> s == Stop(UnknownType + KindName(v) + "\n")
    ensures rule.0 !in SchemaFunctions + {RequiredRule, DefaultRule} ==> s == Crash
  {
    var (ruleName, ruleValue) := rule;
    if ruleName == RequiredRule then
      if defined then Next(v) else Stop(name + " is required")
    else if ruleName == DefaultRule then
      if defined then Next(v)
      else
        match v
        case Bool(_) =>
          (match Strconv.ParseBool(ruleValue)
           case None => Stop(BadDefault)
           case Some(b) => Next(Bool(b)))
        case Int(_) =>
          (match Strconv.Atoi(ruleValue)
           case None => Stop(BadDefault)
           case Some(n) => Next(Int(n)))
        case Str(_) => Next(Str(ruleValue))
        case _ => Stop(UnknownType + KindName(v) + "\n")
    else if ruleName in SchemaFunctions then
      var res := if ruleName == MinRule then HandleMin(name, ruleValue, v)
        else if ruleName == MaxRule then HandleMax(name, ruleValue, v)
        else HandleEnum(name, ruleValue, v);
      match res
      case None => Crash
      case Some((cond, err)) => if cond then Next(v) else Stop(err)
    else Crash
  }

  /** A default on an undefined key stores the rule's value in a field of
      its kind: a bool or an int when the value parses as one, a string as it
      is; an unparsable value stops with the malformed-schema error. */
  lemma DefaultFills(name: string, value: string, v: Value)
    requires Scalar(v)
    ensures var s := ApplyRule(name, (DefaultRule, value), v, false);
      && (v.Bool? ==> s == if Strconv.ParseBool(value).Some? then Next(Bool(Strconv.ParseBool(value).value)) else Stop(BadDefault))
      && (v.Int? ==> s == if Strconv.Atoi(value).Some? then Next(Int(Strconv.Atoi(value).value)) else Stop(BadDefault))
      && (v.Str? ==> s == Next(Str(value)))
  {
  }

  /** A min rule, whether the key is defined or not: an unparsable bound
      stops with the malformed-schema text; otherwise an int value (or an
      interface holding one) is kept when the bound is at most it and stops
      with "<field> must be less than <bound>" when not; any other value
      panics in the type assertion. */
  lemma MinRuleStep(name: string, bound: string, v: Value, defined: bool)
    ensures var s := ApplyRule(name, (MinRule, bound), v, defined);
      && (Strconv.Atoi(bound).None? ==> s == Stop(MinMalformed))
      && (Strconv.Atoi(bound).Some? && Dynamic(v).Int? ==>
            s == if Strconv.Atoi(bound).value <= Dynamic(v).i then Next(v) else Stop(name + " must be less than " + bound))
      && (Strconv.Atoi(bound).Some? && !Dynamic(v).Int? ==> s == Crash)
  {
  }

  /** A max rule: the same, the bound having to be at least the value; the
      failure text also says "less than". */
  lemma MaxRuleStep(name: string, bound: string, v: Value, defined: bool)
    ensures var s := ApplyRule(name, (MaxRule, bound), v, defined);
      && (Strconv.Atoi(bound).None? ==> s == Stop(MaxMalformed))
      && (Strconv.Atoi(bound).Some? && Dynamic(v).Int? ==>
            s == if Strconv.Atoi(bound).value >= Dynamic(v).i then Next(v) else Stop(name + " must be less than " + bound))
      && (Strconv.Atoi(bound).Some? && !Dynamic(v).Int? ==> s == Crash)
  {
  }

  /** An enum rule: a string value (or an interface holding one) is kept
      when it is one of the "|"-separated alternatives and stops with the
      listing of them otherwise; any other value panics. */
  lemma EnumRuleStep(name: string, alternatives: string, v: Value, defined: bool)
    ensures var s := ApplyRule(name, (EnumRule, alternatives), v, defined);
      && (Dynamic(v).Str? ==>
            s == if Dynamic(v).s in Split(alternatives, '|') then Next(v)
                 else Stop(name + " must be in [" + Join(Split(alternatives, '|'), ' ') + "]"))
      && (!Dynamic(v).Str? ==> s == Crash)
  {
  }

  /** The rule loop of validate_struct over the rules of one tag: in tag
      order, each rule sees the value the previous ones left; the first rule
      that stops or panics ends the loop. */
  function RulesResult(name: string, rules: seq<string>, v: Value, defined: bool): (r: (Value, Status))
    ensures SameKind(v, r.0)
  {
    if |rules| == 0 then (v, Passed)
    else
      match ApplyRule(name, ParseRule(rules[0]), v, defined)
      case Stop(msg) => (v, Failed(msg))
      case Crash => (v, Panicked)
      case Next(v1) =>
        var r := RulesResult(name, rules[1..], v1, defined);
        (r.0, r.1)
  }

  /** The first rule that fails decides: the rules after it are never run. */
  lemma FirstFailureDecides(name: string, rule: string, rest: seq<string>, v: Value, defined: bool)
    requires ApplyRule(name, ParseRule(rule), v, defined).Stop?
    ensures RulesResult(name, [rule] + rest, v, defined) == (v, Failed(ApplyRule(name, ParseRule(rule), v, defined).msg))
  {
    assert ([rule] + rest)[0] == rule;
  }

  /** A rule whose name is not in the schema-function table, nor required or
      default, panics when it is reached. */
  lemma UnknownRulePanics(name: string, rule: string, rest: seq<string>, v: Value, defined: bool)
    requires ParseRule(rule).0 !in SchemaFunctions + {RequiredRule, DefaultRule}
    ensures RulesResult(name, [rule] + rest, v, defined) == (v, Panicked)
  {
    assert ([rule] + rest)[0] == rule;
  }

  /** The path of a field: the path of its struct and its toml tag. */
  function FieldPath(path: seq<string>, f: Field): seq<string>
  {
    path + [f.tomlTag]
  }

  /** The tag stage of one field: no tag leaves it as it is. */
  function TagResult(f: Field, path: seq<string>, md: MetaData): (r: (Value, Status))
    ensures SameKind(f.val, r.0)
  {
    if f.tag == "" then (f.val, Passed) else RulesResult(f.name, Split(f.tag, ','), f.val, FieldPath(path, f) in md)
  }

  /** Prefixing the fields already done to a result of the rest. */
  function Prefixed<T>(done: seq<T>, r: (seq<T>, Status)): (seq<T>, Status)
  {
    (done + r.0, r.1)
  }

  lemma PrefixedNone<T>(r: (seq<T>, Status))
    ensures Prefixed([], r) == r
  {
    assert [] + r.0 == r.0;
  }

  lemma PrefixedTwice<T>(a: seq<T>, b: seq<T>, r: (seq<T>, Status))
    ensures Prefixed(a, Prefixed(b, r)) == Prefixed(a + b, r)
  {
    assert a + (b + r.0) == (a + b) + r.0;
  }

  /** One field of validate_struct: its tag rules, then, for a map or a
      struct, the walk of its value under the field's path. Only the value
      can change. */
  function FieldResult(f: Field, path: seq<string>, md: MetaData): (r: (Field, Status))
    ensures r.0 == f.(val := r.0.val)
    decreases f, 3
  {
    var t := TagResult(f, path, md);
    if t.1 != Passed then (f.(val := t.0), t.1)
    else if f.val.Map? || f.val.Struct? then
      var n := ValueResult(f.val, FieldPath(path, f), md);
      (f.(val := n.0), n.1)
    else (f.(val := t.0), Passed)
  }

  /** validate_struct: the fields in order; the first error or panic ends the
      walk and leaves the remaining fields as they were. */
  function StructResult(fields: seq<Field>, path: seq<string>, md: MetaData): (r: (seq<Field>, Status))
    ensures |r.0| == |fields|
    decreases fields, 2
  {
    if |fields| == 0 then ([], Passed)
    else
      var r := FieldResult(fields[0], path, md);
      if r.1 != Passed then ([r.0] + fields[1..], r.1)
      else Prefixed([r.0], StructResult(fields[1..], path, md))
  }

  /** One entry of the map loop of validate: a struct value panics (Elem of
      a struct), a pointer is validated as a struct under the path with the
      key pushed (its target must be a struct, otherwise NumField panics), and
      other values are skipped, a value of interface kind (the entries of a
      map whose element type is an interface) among them. */
  function EntryResult(e: Entry, path: seq<string>, md: MetaData): (r: (Entry, Status))
    ensures r.0.key == e.key
    decreases e, 3
  {
    match e.val
    case Ptr(t) =>
      if t.Struct? then
        var s := StructResult(t.fields, path + [e.key], md);
        (e.(val := Ptr(Struct(s.0))), s.1)
      else (e, Panicked)
    case Struct(_) => (e, Panicked)
    case Nil => (e, Panicked)
    case _ => (e, Passed)
  }

  /** The map loop: the entries in order, each under the same path with its
      own key pushed; the first error or panic ends the loop. */
  function MapResult(entries: seq<Entry>, path: seq<string>, md: MetaData): (r: (seq<Entry>, Status))
    ensures |r.0| == |entries|
    decreases entries, 2
  {
    if |entries| == 0 then ([], Passed)
    else
      var r := EntryResult(entries[0], path, md);
      if r.1 != Passed then ([r.0] + entries[1..], r.1)
      else Prefixed([r.0], MapResult(entries[1..], path, md))
  }

  /** validate after its pointer step: a map or a struct is walked, any other
      kind passes. */
  function KindResult(v: Value, path: seq<string>, md: MetaData): (r: (Value, Status))
    decreases v, 0
  {
    match v
    case Map(es) => var m := MapResult(es, path, md); (Map(m.0), m.1)
    case Struct(fs) => var s := StructResult(fs, path, md); (Struct(s.0), s.1)
    case _ => (v, Passed)
  }

  /** validate: one pointer or interface is followed (a nil one leaves
      nothing to check), then the value is walked by its kind. */
  function ValueResult(v: Value, path: seq<string>, md: MetaData): (r: (Value, Status))
    decreases v, 1
  {
    match v
    case Ptr(t) => var k := KindResult(t, path, md); (Ptr(k.0), k.1)
    case Iface(t) => var k := KindResult(t, path, md); (Iface(k.0), k.1)
    case Nil => (v, Passed)
    case _ => KindResult(v, path, md)
  }

  /** Running the rules of a tag in two parts: the second part runs on what
      the first leaves, and only when the first passes. */
  lemma {:induction false} RulesInOrder(name: string, first: seq<string>, second: seq<string>, v: Value, defined: bool)
    ensures RulesResult(name, first + second, v, defined)
      == var r := RulesResult(name, first, v, defined);
         if r.1 == Passed then RulesResult(name, second, r.0, defined) else r
    decreases |first|
  {
    if |first| > 0 {
      assert (first + second)[0] == first[0];
      assert (first + second)[1..] == first[1..] + second;
      match ApplyRule(name, ParseRule(first[0]), v, defined)
      case Next(v1) => RulesInOrder(name, first[1..], second, v1, defined);
      case _ =>
    } else {
      assert first + second == second;
    }
  }

  /** No rule changes a field whose key the document defines. */
  lemma {:induction false} DefinedKeptAsIs(name: string, rules: seq<string>, v: Value)
    ensures RulesResult(name, rules, v, true).0 == v
    decreases |rules|
  {
    if |rules| > 0 {
      match ApplyRule(name, ParseRule(rules[0]), v, true)
      case Next(v1) =>
        DefinedKeptAsIs(name, rules[1..], v1);
      case _ =>
    }
  }

  /** A field whose first rule is `required` and whose key the document does
      not define fails with "<Field> is required", unchanged. */
  lemma RequiredMissing(f: Field, path: seq<string>, md: MetaData)
    requires f.tag != "" && ParseRule(Split(f.tag, ',')[0]).0 == RequiredRule
    requires FieldPath(path, f) !in md
    ensures FieldResult(f, path, md) == (f, Failed(f.name + " is required"))
  {
    var rules := Split(f.tag, ',');
    assert rules == [rules[0]] + rules[1..];
    FirstFailureDecides(f.name, rules[0], rules[1..], f.val, false);
  }

  /** A field tagged `default=d` whose key is missing: a default of its kind
      is stored in the field; one that does not parse, or a field of a kind
      that takes no default, is an error and the field is left as it was. */
  lemma DefaultMissing(f: Field, d: string, path: seq<string>, md: MetaData)
    requires f.tag == DefaultRule + "=" + d && ',' !in d && '=' !in d
    requires FieldPath(path, f) !in md
    ensures var s := ApplyRule(f.name, (DefaultRule, d), f.val, false);
      && !s.Crash?
      && (s.Next? ==> FieldResult(f, path, md) == (f.(val := s.v), Passed))
      && (s.Stop? ==> FieldResult(f, path, md) == (f, Failed(s.msg)))
  {
    OneDefaultRule(f, d);
    var single: seq<string> := [f.tag];
    assert TagResult(f, path, md) == RulesResult(f.name, single, f.val, false);
    assert single[1..] == [];
    var s := ApplyRule(f.name, (DefaultRule, d), f.val, false);
    if s.Next? {
      assert RulesResult(f.name, single[1..], s.v, false) == (s.v, Passed);
      assert RulesResult(f.name, single, f.val, false) == (s.v, Passed);
    } else if s.Stop? {
      assert RulesResult(f.name, single, f.val, false) == (f.val, Failed(s.msg));
    }
  }

  /** The tag "default=d" is the one rule named default with the value d. */
  lemma OneDefaultRule(f: Field, d: string)
    requires f.tag == DefaultRule + "=" + d && ',' !in d && '=' !in d
    ensures Split(f.tag, ',') == [f.tag] && ParseRule(f.tag) == (DefaultRule, d)
  {
    assert ',' !in f.tag by {
      assert f.tag == DefaultRule + ("=" + d);
    }
    SplitWithoutSep(f.tag, ',');
    ParseRuleOf(DefaultRule, d);
  }

  /** A scalar field whose key the document defines is left as it is. */
  lemma DefinedFieldKept(f: Field, path: seq<string>, md: MetaData)
    requires FieldPath(path, f) in md && Scalar(f.val)
    ensures FieldResult(f, path, md).0 == f
  {
    if f.tag != "" {
      DefinedKeptAsIs(f.name, Split(f.tag, ','), f.val);
    }
  }

  /** validate_struct ends with the first field that does not pass, every
      field being validated on its own under the same struct path. */
  lemma {:induction false} StructFirstFailure(fields: seq<Field>, path: seq<string>, md: MetaData)
    ensures StructResult(fields, path, md).1 == Passed
      <==> forall k :: 0 <= k < |fields| ==> FieldResult(fields[k], path, md).1 == Passed
    ensures StructResult(fields, path, md).1 != Passed ==>
      exists k :: 0 <= k < |fields| && FieldResult(fields[k], path, md).1 == StructResult(fields, path, md).1
        && forall j :: 0 <= j < k ==> FieldResult(fields[j], path, md).1 == Passed
    decreases |fields|
  {
    if |fields| > 0 {
      var tail := fields[1..];
      StructFirstFailure(tail, path, md);
      forall k | 0 <= k < |tail| ensures tail[k] == fields[k + 1] { }
      if FieldResult(fields[0], path, md).1 == Passed && StructResult(fields, path, md).1 != Passed {
        var k :| 0 <= k < |tail| && FieldResult(tail[k], path, md).1 == StructResult(tail, path, md).1
          && forall j :: 0 <= j < k ==> FieldResult(tail[j], path, md).1 == Passed;
        assert FieldResult(fields[k + 1], path, md).1 == StructResult(fields, path, md).1;
      }
    }
  }

  /** The map loop validates every entry under the same path with its own
      key pushed, and ends with the first entry that does not pass. */
  lemma {:induction false} MapFirstFailure(entries: seq<Entry>, path: seq<string>, md: MetaData)
    ensures MapResult(entries, path, md).1 == Passed
      <==> forall k :: 0 <= k < |entries| ==> EntryResult(entries[k], path, md).1 == Passed
    ensures MapResult(entries, path, md).1 != Passed ==>
      exists k :: 0 <= k < |entries| && EntryResult(entries[k], path, md).1 == MapResult(entries, path, md).1
        && forall j :: 0 <= j < k ==> EntryResult(entries[j], path, md).1 == Passed
    decreases |entries|
  {
    if |entries| > 0 {
      var tail := entries[1..];
      MapFirstFailure(tail, path, md);
      forall k | 0 <= k < |tail| ensures tail[k] == entries[k + 1] { }
      if EntryResult(entries[0], path, md).1 == Passed && MapResult(entries, path, md).1 != Passed {
        var k :| 0 <= k < |tail| && EntryResult(tail[k], path, md).1 == MapResult(tail, path, md).1
          && forall j :: 0 <= j < k ==> EntryResult(tail[j], path, md).1 == Passed;
        assert EntryResult(entries[k + 1], path, md).1 == MapResult(entries, path, md).1;
      }
    }
  }

  /** A map whose element type is an interface is left as it is and passes,
      whatever its entries hold: the loop only descends into values of
      struct or pointer kind. */
  lemma {:induction false} InterfaceMapSkipped(entries: seq<Entry>, path: seq<string>, md: MetaData)
    requires forall k :: 0 <= k < |entries| ==> entries[k].val.Iface?
    ensures MapResult(entries, path, md) == (entries, Passed)
    decreases |entries|
  {
    if |entries| > 0 {
      InterfaceMapSkipped(entries[1..], path, md);
      assert [entries[0]] + entries[1..] == entries;
    }
  }

  /** The fields of the Setup struct of internal/utils/setup.go: a prompt
      without rules, and the socket and configuration paths with their
      defaults. */
  function SetupFields(prompt: string, socket: string, config: string): seq<Field>
  {
    DefaultedFields(prompt, socket, config, DefaultSocket, DefaultConfig)
  }

  const DefaultSocket: string := "/tmp/taskmaster.sock"
  const DefaultConfig: string := "taskmaster.toml"

  /** The shape of Setup with the two defaults left open. */
  function DefaultedFields(prompt: string, socket: string, config: string, ds: string, dc: string): seq<Field>
  {
    [Field("Prompt", "prompt", "", Str(prompt)),
     Field("Socket", "socket", DefaultRule + "=" + ds, Str(socket)),
     Field("Config", "config", DefaultRule + "=" + dc, Str(config))]
  }

  /** A string field tagged `default=d` passes: it keeps the value the
      document gives, or gets d when its key is missing. */
  lemma DefaultString(f: Field, d: string, path: seq<string>, md: MetaData)
    requires f.tag == DefaultRule + "=" + d && ',' !in d && '=' !in d && f.val.Str?
    ensures FieldResult(f, path, md)
      == (f.(val := if FieldPath(path, f) in md then f.val else Str(d)), Passed)
  {
    OneDefaultRule(f, d);
    var defined := FieldPath(path, f) in md;
    var single: seq<string> := [f.tag];
    assert single[1..] == [];
    var v := if defined then f.val else Str(d);
    assert ApplyRule(f.name, ParseRule(single[0]), f.val, defined) == Next(v);
    assert RulesResult(f.name, single[1..], v, defined) == (v, Passed);
    assert RulesResult(f.name, single, f.val, defined) == (v, Passed);
    assert TagResult(f, path, md) == (v, Passed);
  }

  /** Validating the Setup shape with any two defaults that hold no "," and
      no "=". */
  lemma DefaultedPass(prompt: string, socket: string, config: string, ds: string, dc: string, md: MetaData)
    requires ',' !in ds && '=' !in ds && ',' !in dc && '=' !in dc
    ensures StructResult(DefaultedFields(prompt, socket, config, ds, dc), [], md)
      == (DefaultedFields(prompt, if ["socket"] in md then socket else ds,
                          if ["config"] in md then config else dc, ds, dc), Passed)
  {
    var fs := DefaultedFields(prompt, socket, config, ds, dc);
    var gs := DefaultedFields(prompt, if ["socket"] in md then socket else ds,
                              if ["config"] in md then config else dc, ds, dc);
    forall k | 0 <= k < 3 ensures FieldResult(fs[k], [], md) == (gs[k], Passed) {
      if k == 1 {
        assert FieldPath([], fs[1]) == ["socket"];
        DefaultString(fs[1], ds, [], md);
      } else if k == 2 {
        assert FieldPath([], fs[2]) == ["config"];
        DefaultString(fs[2], dc, [], md);
      }
    }
    StructPassesAs(fs, [], md, gs);
  }

  /** Validating a Setup always passes: the socket and configuration paths
      the document leaves out get their defaults, the ones it gives are
      kept, and the prompt is never touched. */
  lemma SetupDefaults(prompt: string, socket: string, config: string, md: MetaData)
    ensures StructResult(SetupFields(prompt, socket, config), [], md)
      == (SetupFields(prompt, if ["socket"] in md then socket else DefaultSocket,
                      if ["config"] in md then config else DefaultConfig), Passed)
  {
    assert ',' !in DefaultSocket && '=' !in DefaultSocket;
    assert ',' !in DefaultConfig && '=' !in DefaultConfig;
    DefaultedPass(prompt, socket, config, DefaultSocket, DefaultConfig, md);
  }

  /** The same when validation starts from &setup, as ParseSetupFile calls it. */
  lemma SetupThroughPtr(prompt: string, socket: string, config: string, md: MetaData)
    ensures ValueResult(Ptr(Struct(SetupFields(prompt, socket, config))), [], md)
      == (Ptr(Struct(SetupFields(prompt, if ["socket"] in md then socket else DefaultSocket,
                                 if ["config"] in md then config else DefaultConfig))), Passed)
  {
    SetupDefaults(prompt, socket, config, md);
  }

  /** A struct whose every field passes turns into the fields' results. */
  lemma StructPassesAs(fields: seq<Field>, path: seq<string>, md: MetaData, out: seq<Field>)
    requires |out| == |fields|
    requires forall k :: 0 <= k < |fields| ==> FieldResult(fields[k], path, md) == (out[k], Passed)
    ensures StructResult(fields, path, md) == (out, Passed)
  {
    StructAllPass(fields, path, md);
    assert StructResult(fields, path, md).0 == out;
  }

  /** A struct whose every field passes is walked to the end, each field
      replaced by its own result. */
  lemma {:induction false} StructAllPass(fields: seq<Field>, path: seq<string>, md: MetaData)
    requires forall k :: 0 <= k < |fields| ==> FieldResult(fields[k], path, md).1 == Passed
    ensures StructResult(fields, path, md).1 == Passed
    ensures forall k :: 0 <= k < |fields| ==> StructResult(fields, path, md).0[k] == FieldResult(fields[k], path, md).0
    decreases |fields|
  {
    if |fields| > 0 {
      var tail := fields[1..];
      forall k | 0 <= k < |tail| ensures tail[k] == fields[k + 1] { }
      StructAllPass(tail, path, md);
      var r := StructResult(fields, path, md);
      assert r.0 == [FieldResult(fields[0], path, md).0] + StructResult(tail, path, md).0;
      forall k | 0 < k < |fields| ensures r.0[k] == FieldResult(fields[k], path, md).0 {
        assert r.0[k] == StructResult(tail, path, md).0[k - 1];
      }
    }
  }

  /** The rule loop of validate_struct for one field: each rule is parsed
      and applied in turn, a default being stored in the field's value. */
  method ApplyRules(name: string, rules: seq<string>, v0: Value, defined: bool) returns (v: Value, st: Status)
    ensures (v, st) == RulesResult(name, rules, v0, defined)
  {
    v := v0;
    for i := 0 to |rules|
      invariant RulesResult(name, rules, v0, defined) == RulesResult(name, rules[i..], v, defined)
    {
      assert rules[i..][1..] == rules[i + 1..];
      var rule := ParseRule(rules[i]);
      match ApplyRule(name, rule, v, defined)
      case Stop(msg) => return v, Failed(msg);
      case Crash => return v, Panicked;
      case Next(v1) => v := v1;
    }
    st := Passed;
  }

  /** The body of validate_struct's loop for one field: the path with its
      toml tag appended, the rule loop, then validate on a map or struct. */
  method ValidateField(f: Field, path: seq<string>, md: MetaData) returns (g: Field, st: Status)
    ensures (g, st) == FieldResult(f, path, md)
    decreases f, 3
  {
    var p := FieldPath(path, f);
    var v := f.val;
    st := Passed;
    if f.tag != "" {
      v, st := ApplyRules(f.name, Split(f.tag, ','), f.val, p in md);
      if st != Passed {
        return f.(val := v), st;
      }
    }
    if v.Map? || v.Struct? {
      v, st := Validate(f.val, p, md);
    }
    g := f.(val := v);
  }

  /** validate_struct: the fields in order, their values updated in place;
      the first error or panic is returned. */
  method ValidateStruct(fields: seq<Field>, path: seq<string>, md: MetaData) returns (out: seq<Field>, st: Status)
    ensures (out, st) == StructResult(fields, path, md)
    decreases fields, 2
  {
    out := fields;
    var i := 0;
    PrefixedNone(StructResult(fields, path, md));
    while i < |fields|
      invariant 0 <= i <= |fields| && |out| == |fields| && out[i..] == fields[i..]
      invariant StructResult(fields, path, md) == Prefixed(out[..i], StructResult(fields[i..], path, md))
      decreases |fields| - i
    {
      assert fields[i..][0] == fields[i] && fields[i..][1..] == fields[i + 1..];
      var g, fst := ValidateField(fields[i], path, md);
      if fst != Passed {
        assert out[..i] + ([g] + fields[i + 1..]) == out[..i] + [g] + fields[i + 1..];
        return out[..i] + [g] + fields[i + 1..], fst;
      }
      PrefixedTwice(out[..i], [g], StructResult(fields[i + 1..], path, md));
      assert out[..i] + [g] == (out[..i] + [g] + fields[i + 1..])[..i + 1];
      out := out[..i] + [g] + fields[i + 1..];
      i := i + 1;
    }
    assert out[..i] + [] == out;
    st := Passed;
  }

  /** The body of validate's map loop for one entry: a struct or pointer
      value is validated with the key pushed onto the path, and the key is
      popped again; the path is handed back as it came. */
  method ValidateEntry(e: Entry, path: seq<string>, md: MetaData) returns (e1: Entry, st: Status, after: seq<string>)
    ensures (e1, st) == EntryResult(e, path, md) && after == path
    decreases e, 3
  {
    e1, st, after := e, Passed, path;
    if e.val.Struct? || e.val.Ptr? || e.val.Nil? {
      after := after + [e.key];
      if e.val.Ptr? && e.val.target.Struct? {
        var fs;
        fs, st := ValidateStruct(e.val.target.fields, after, md);
        e1 := e.(val := Ptr(Struct(fs)));
      } else {
        st := Panicked;
      }
      after := after[..|after| - 1];
    }
  }

  /** validate: one pointer or interface is followed, a nil one leaves
      nothing to check. */
  method Validate(v: Value, path: seq<string>, md: MetaData) returns (out: Value, st: Status)
    ensures (out, st) == ValueResult(v, path, md)
    decreases v, 1
  {
    match v
    case Nil => return v, Passed;
    case Ptr(t) =>
      var k;
      k, st := ValidateKind(t, path, md);
      out := Ptr(k);
    case Iface(t) =>
      var k;
      k, st := ValidateKind(t, path, md);
      out := Iface(k);
    case _ => out, st := ValidateKind(v, path, md);
  }

  /** The switch of validate on the kind: a struct is validated field by
      field; in a map, each struct pointer is validated with its key pushed
      onto the path, which is popped again after it. */
  method ValidateKind(v: Value, path: seq<string>, md: MetaData) returns (out: Value, st: Status)
    ensures (out, st) == KindResult(v, path, md)
    decreases v, 0
  {
    match v
    case Struct(fs) =>
      var fs1;
      fs1, st := ValidateStruct(fs, path, md);
      out := Struct(fs1);
    case Map(entries) =>
      var es := entries;
      var keys := path;
      var i := 0;
      PrefixedNone(MapResult(entries, path, md));
      while i < |entries|
        invariant 0 <= i <= |entries| && |es| == |entries| && es[i..] == entries[i..]
        invariant keys == path
        invariant MapResult(entries, path, md) == Prefixed(es[..i], MapResult(entries[i..], path, md))
        decreases |entries| - i
      {
        assert entries[i..][0] == entries[i] && entries[i..][1..] == entries[i + 1..];
        var e1, est;
        e1, est, keys := ValidateEntry(entries[i], keys, md);
        if est != Passed {
          assert es[..i] + ([e1] + entries[i + 1..]) == es[..i] + [e1] + entries[i + 1..];
          return Map(es[..i] + [e1] + entries[i + 1..]), est;
        }
        PrefixedTwice(es[..i], [e1], MapResult(entries[i + 1..], path, md));
        assert es[..i] + [e1] == (es[..i] + [e1] + entries[i + 1..])[..i + 1];
        es := es[..i] + [e1] + entries[i + 1..];
        i := i + 1;
      }
      assert es[..i] + [] == es;
      out, st := Map(es), Passed;
    case _ => out, st := v, Passed;
  }
}
