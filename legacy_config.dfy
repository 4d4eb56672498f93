/** internal/parser/config/config.go: the older validator, which checks
    `required` tags against a field's string form and descends into struct
    and map fields, and Parse_config, which decodes, validates and lists the
    programs. The values reflection walks are an explicit tree; a map is the
    sequence of its entries in the order Go iterates it. */
module LegacyConfig {
  import opened Wrappers
  import opened Text

  /** A value as reflection sees it: a string, a bool, an int, a struct (its
      fields in declaration order) or a map (its entries). */
  datatype Value = Str(s: string) | Bool(b: bool) | Int(i: int) | Struct(fields: seq<Field>) | Map(entries: seq<Entry>)

  /** A struct field: its name, its `validate` tag and its value. */
  datatype Field = Field(name: string, tag: string, val: Value)

  /** A map entry: its key and its value. */
  datatype Entry = Entry(key: string, val: Value)

  /** reflect.Value.String: the text of a string, and "<T Value>" naming
      the value's type T for every other kind, so only a string can be empty.
      The struct and map types that config.go declares are config.Program
      and map[string]config.Program. */
  function StringForm(v: Value): (s: string)
    ensures s == "" <==> v == Str("")
  {
    match v
    case Str(s) => s
    case Bool(_) => "<bool Value>"
    case Int(_) => "<int Value>"
    case Struct(_) => "<config.Program Value>"
    case Map(_) => "<map[string]config.Program Value>"
  }

  const Required: string := "required"
  const RequiredSuffix: string := " is required"

  /** An error of the form "<Field> is required". */
  predicate IsRequiredError(e: string)
  {
    |e| >= |RequiredSuffix| && e[|e| - |RequiredSuffix|..] == RequiredSuffix
  }

  /** The rule loop: the first "required" rule on a value whose string form
      is empty fails; every other rule is ignored. */
  function CheckRules(name: string, rules: seq<string>, v: Value): (err: Option<string>)
    ensures err.Some? <==> Required in rules && StringForm(v) == ""
    ensures err.Some? ==> err.value == name + RequiredSuffix
  {
    if |rules| == 0 then None
    else if rules[0] == Required && StringForm(v) == "" then Some(name + RequiredSuffix)
    else
      assert rules == [rules[0]] + rules[1..];
      CheckRules(name, rules[1..], v)
  }

  /** The tag check of one field: nothing for an empty tag, otherwise the
      rules of the tag split on ",". */
  function CheckField(f: Field): (err: Option<string>)
    ensures err.Some? <==> f.tag != "" && Required in Split(f.tag, ',') && f.val == Str("")
    ensures err.Some? ==> err.value == f.name + RequiredSuffix
  {
    if f.tag == "" then None else CheckRules(f.name, Split(f.tag, ','), f.val)
  }

  lemma RequiredErrorOf(name: string)
    ensures IsRequiredError(name + RequiredSuffix)
  {
    var e := name + RequiredSuffix;
    assert e[|e| - |RequiredSuffix|..] == RequiredSuffix;
  }

  /** validate over the fields of a struct: each field's tag is checked; a
      struct field then answers for the whole struct, so the fields after it
      are never looked at; a map field has its struct values validated in
      turn, the first error returned. */
  function ValidateFields(fields: seq<Field>): (err: Option<string>)
    ensures err.Some? ==> IsRequiredError(err.value)
    decreases fields
  {
    if |fields| == 0 then None
    else
      var f := fields[0];
      var tagErr := CheckField(f);
      if tagErr.Some? then
        RequiredErrorOf(f.name);
        tagErr
      else
        match f.val
        case Struct(inner) => ValidateFields(inner)
        case Map(entries) =>
          var e := ValidateEntries(entries);
          if e.Some? then e else ValidateFields(fields[1..])
        case _ => ValidateFields(fields[1..])
  }

  /** The map loop: entries whose value is a struct are validated in order;
      other values are skipped. */
  function ValidateEntries(entries: seq<Entry>): (err: Option<string>)
    ensures err.Some? ==> IsRequiredError(err.value)
    decreases entries
  {
    if |entries| == 0 then None
    else
      match entries[0].val
      case Struct(inner) =>
        var e := ValidateFields(inner);
        if e.Some? then e else ValidateEntries(entries[1..])
      case _ => ValidateEntries(entries[1..])
  }

  /** The tag contributes only its required check: once it passes, the field
      is validated as if it had no tag. */
  lemma TagOnlyChecks(f: Field, rest: seq<Field>)
    ensures CheckField(f.(tag := "")) == None
    ensures ValidateFields([f] + rest)
      == if CheckField(f).Some? then CheckField(f) else ValidateFields([f.(tag := "")] + rest)
  {
    assert ([f] + rest)[1..] == rest && ([f.(tag := "")] + rest)[1..] == rest;
  }

  /** A required field whose value is the empty string fails with
      "<Field> is required", before anything else in the struct. */
  lemma RequiredEmptyFails(f: Field, rest: seq<Field>)
    requires f.tag != "" && Required in Split(f.tag, ',') && f.val == Str("")
    ensures ValidateFields([f] + rest) == Some(f.name + RequiredSuffix)
  {
    assert ([f] + rest)[0] == f;
  }

  /** A field without a tag and with a scalar value is not checked at all. */
  lemma UntaggedScalarSkipped(f: Field, rest: seq<Field>)
    requires f.tag == "" && !f.val.Struct? && !f.val.Map?
    ensures ValidateFields([f] + rest) == ValidateFields(rest)
  {
    assert ([f] + rest)[0] == f && ([f] + rest)[1..] == rest;
  }

  /** A struct field that passes its tag check gives the answer for the
      whole struct: whatever follows it is skipped. */
  lemma StructFieldDecides(f: Field, rest: seq<Field>)
    requires CheckField(f).None? && f.val.Struct?
    ensures ValidateFields([f] + rest) == ValidateFields(f.val.fields)
  {
    assert ([f] + rest)[0] == f;
  }

  /** A map field that passes its tag check: the first error among its struct
      values, or else the rest of the struct. */
  lemma MapFieldThenRest(f: Field, rest: seq<Field>)
    requires CheckField(f).None? && f.val.Map?
    ensures ValidateFields([f] + rest)
      == if ValidateEntries(f.val.entries).Some? then ValidateEntries(f.val.entries) else ValidateFields(rest)
  {
    assert ([f] + rest)[0] == f && ([f] + rest)[1..] == rest;
  }

  /** The check of one entry: a struct value is validated, any other value
      passes. */
  function EntryCheck(e: Entry): Option<string>
  {
    if e.val.Struct? then ValidateFields(e.val.fields) else None
  }

  /** The map loop returns the error of the first failing entry, and nothing
      when every entry passes. */
  lemma {:induction false} EntriesFirstError(entries: seq<Entry>)
    ensures ValidateEntries(entries).None? <==> forall k :: 0 <= k < |entries| ==> EntryCheck(entries[k]).None?
    ensures ValidateEntries(entries).Some? ==>
      exists k :: 0 <= k < |entries| && EntryCheck(entries[k]) == ValidateEntries(entries)
        && forall j :: 0 <= j < k ==> EntryCheck(entries[j]).None?
    decreases |entries|
  {
    if |entries| > 0 {
      var tail := entries[1..];
      EntriesFirstError(tail);
      forall k | 0 <= k < |tail| ensures tail[k] == entries[k + 1] { }
      if EntryCheck(entries[0]).None? && ValidateEntries(entries).Some? {
        var k :| 0 <= k < |tail| && EntryCheck(tail[k]) == ValidateEntries(tail)
          && forall j :: 0 <= j < k ==> EntryCheck(tail[j]).None?;
        assert EntryCheck(entries[k + 1]) == ValidateEntries(entries);
      }
    }
  }

  /** A program as config.go declares it. */
  datatype Program = Program(Command: string, Autostart: bool)

  /** The fields of a Program: both tagged required. */
  function ProgramValue(p: Program): Value
  {
    Struct([Field("Command", Required, Str(p.Command)), Field("Autostart", Required, Bool(p.Autostart))])
  }

  /** A Config whose Programs map is iterated in the given order. */
  function ConfigFields(programs: map<string, Program>, order: seq<string>): seq<Field>
    requires forall k :: 0 <= k < |order| ==> order[k] in programs
  {
    [Field("Programs", "", Map(Entries(programs, order)))]
  }

  function Entries(programs: map<string, Program>, order: seq<string>): (es: seq<Entry>)
    requires forall k :: 0 <= k < |order| ==> order[k] in programs
    ensures |es| == |order|
    ensures forall k :: 0 <= k < |order| ==> es[k] == Entry(order[k], ProgramValue(programs[order[k]]))
  {
    if |order| == 0 then [] else [Entry(order[0], ProgramValue(programs[order[0]]))] + Entries(programs, order[1..])
  }

  /** A program fails only for an empty command: required on the bool
      Autostart never fails, since its string form is a placeholder. */
  lemma ProgramCheck(p: Program)
    ensures ValidateFields(ProgramValue(p).fields)
      == if p.Command == "" then Some("Command" + RequiredSuffix) else None
  {
    SplitWithoutSep(Required, ',');
    var fs := ProgramValue(p).fields;
    var tail := fs[1..];
    assert tail == [fs[1]] && tail[1..] == [];
    assert CheckField(fs[1]).None?;
    assert ValidateFields(tail).None?;
  }

  /** A program with an empty command. */
  predicate SomeCommandEmpty(programs: map<string, Program>)
  {
    exists name :: name in programs && programs[name].Command == ""
  }

  /** The validation of a Config: "Command is required" when some program has
      an empty command, whichever order the map is iterated in, and nothing
      otherwise. */
  lemma ConfigCheck(programs: map<string, Program>, order: seq<string>)
    requires Lists(order, programs.Keys)
    ensures ValidateFields(ConfigFields(programs, order))
      == if SomeCommandEmpty(programs) then Some("Command" + RequiredSuffix) else None
  {
    var es := Entries(programs, order);
    EntriesCheck(programs, order);
    var fs := ConfigFields(programs, order);
    assert fs[1..] == [];
    assert ValidateFields(fs) == ValidateEntries(es);
  }

  /** The map loop over the programs: "Command is required" iff some
      program listed has an empty command. */
  lemma EntriesCheck(programs: map<string, Program>, order: seq<string>)
    requires Lists(order, programs.Keys)
    ensures ValidateEntries(Entries(programs, order))
      == if SomeCommandEmpty(programs) then Some("Command" + RequiredSuffix) else None
  {
    var es := Entries(programs, order);
    EntriesFirstError(es);
    forall k | 0 <= k < |es|
      ensures EntryCheck(es[k]) == if programs[order[k]].Command == "" then Some("Command" + RequiredSuffix) else None
    {
      ProgramCheck(programs[order[k]]);
    }
    if SomeCommandEmpty(programs) {
      var name :| name in programs && programs[name].Command == "";
      var k :| 0 <= k < |order| && order[k] == name;
      assert EntryCheck(es[k]).Some?;
    }
  }

  /** The listing Parse_config prints for valid programs. */
  function Listing(programs: map<string, Program>, order: seq<string>): (out: string)
    requires forall k :: 0 <= k < |order| ==> order[k] in programs
  {
    if |order| == 0 then ""
    else "Program: " + order[0] + "\n\tCommand: " + programs[order[0]].Command + "\n" + Listing(programs, order[1..])
  }

  /** What Parse_config returns: the decoded programs, the error, and what it
      prints. */
  datatype ParseOutcome = ParseOutcome(programs: map<string, Program>, err: Option<string>, printed: string)

  /** Parse_config on what the decoder produced (`decoded`, and its error or
      None): the validation error wins; otherwise the programs are listed,
      in the order `shown` of the print loop, and the decode error is
      returned. The validation order is `order`. */
  function ParseConfig(decoded: map<string, Program>, decodeErr: Option<string>, order: seq<string>, shown: seq<string>): (r: ParseOutcome)
    requires Lists(order, decoded.Keys) && Lists(shown, decoded.Keys)
    ensures r.programs == decoded
    ensures r.err == if SomeCommandEmpty(decoded) then Some("Command" + RequiredSuffix) else decodeErr
    ensures SomeCommandEmpty(decoded) ==> r.printed == ""
    ensures !SomeCommandEmpty(decoded) ==> r.printed == Listing(decoded, shown)
  {
    ConfigCheck(decoded, order);
    var e := ValidateFields(ConfigFields(decoded, order));
    if e.Some? then ParseOutcome(decoded, e, "")
    else ParseOutcome(decoded, decodeErr, Listing(decoded, shown))
  }
}
