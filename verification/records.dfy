/** The construction and validation protocol of the record classes
    `Indicator`, `Malware`, `Relationship` and `Bundle`: a schema per kind,
    header checks (`type`, `id`, fixed values), the first missing required
    field, coercion and defaulting in declared order, the unexpected-field
    check, and the frozen result. The clock, the id generator and the text
    date parser are passed in. */
module Records {
  import opened Results
  import opened Errors
  import opened Calendar
  import opened Timestamps
  import opened StringOrder

  datatype Kind = Indicator | Malware | Relationship | Bundle

  /** The fixed `type` value of each kind. */
  function Tag(k: Kind): string {
    match k
    case Indicator => "indicator"
    case Malware => "malware"
    case Relationship => "relationship"
    case Bundle => "bundle"
  }

  /** The class name that error messages use. */
  function ClassName(k: Kind): string {
    match k
    case Indicator => "Indicator"
    case Malware => "Malware"
    case Relationship => "Relationship"
    case Bundle => "Bundle"
  }

  /** What `id` values of kind `k` must start with. */
  function IdPrefixOf(k: Kind): string {
    Tag(k) + "--"
  }

  /** What a field holds. */
  datatype Shape =
    | FixedText(text: string)
    | Identifier
    | FreeText
    | TextArray
    | Timestamp
    | Reference
    | ObjectList

  /** What happens when a field is not supplied. `CurrentTime` is the `NOW` sentinel:
      the field takes the single instant captured for the construction. */
  datatype Rule = Required | Optional | DefaultText(text: string) | FreshId | CurrentTime

  datatype FieldSpec = FieldSpec(name: string, shape: Shape, rule: Rule)

  /** The fields every kind except `Bundle` starts with. */
  function Common(k: Kind): seq<FieldSpec> {
    [ FieldSpec("type", FixedText(Tag(k)), DefaultText(Tag(k))),
      FieldSpec("id", Identifier, FreshId),
      FieldSpec("created", Timestamp, CurrentTime),
      FieldSpec("modified", Timestamp, CurrentTime) ]
  }

  /** The fields of each kind, in declared order: distinct names, defaults
      that fit their shapes, `type` then `id` first. */
  function Schema(k: Kind): (specs: seq<FieldSpec>)
    ensures GoodSchema(specs)
    ensures |specs| >= 2
    ensures specs[0] == FieldSpec("type", FixedText(Tag(k)), DefaultText(Tag(k)))
    ensures specs[1] == FieldSpec("id", Identifier, FreshId)
  {
    FieldsDistinct(k);
    FieldsFit(k);
    FieldsHeader(k);
    Fields(k)
  }

  lemma FieldsFit(k: Kind)
    ensures forall i :: 0 <= i < |Fields(k)| ==> RuleFitsShape(Fields(k)[i])
  {
  }

  lemma FieldsHeader(k: Kind)
    ensures |Fields(k)| >= 2
    ensures Fields(k)[0] == FieldSpec("type", FixedText(Tag(k)), DefaultText(Tag(k)))
    ensures Fields(k)[1] == FieldSpec("id", Identifier, FreshId)
  {
  }

  lemma FieldsDistinct(k: Kind)
    ensures DistinctNames(Fields(k))
  {
    var specs := Fields(k);
    forall i, j | 0 <= i < j < |specs|
      ensures specs[i].name != specs[j].name
    {
      Differ(specs[i].name, specs[j].name);
    }
  }

  function Fields(k: Kind): seq<FieldSpec> {
    match k
    case Indicator =>
      Common(k) + [ FieldSpec("labels", TextArray, Required),
                    FieldSpec("pattern", FreeText, Required),
                    FieldSpec("valid_from", Timestamp, CurrentTime) ]
    case Malware =>
      Common(k) + [ FieldSpec("labels", TextArray, Required),
                    FieldSpec("name", FreeText, Required) ]
    case Relationship =>
      Common(k) + [ FieldSpec("relationship_type", FreeText, Required),
                    FieldSpec("source_ref", Reference, Required),
                    FieldSpec("target_ref", Reference, Required) ]
    case Bundle =>
      [ FieldSpec("type", FixedText(Tag(k)), DefaultText(Tag(k))),
        FieldSpec("id", Identifier, FreshId),
        FieldSpec("spec_version", FixedText("2.0"), DefaultText("2.0")),
        FieldSpec("objects", ObjectList, Optional) ]
  }

  function NamesOf(specs: seq<FieldSpec>): set<string> {
    set i | 0 <= i < |specs| :: specs[i].name
  }

  /** The field names kind `k` accepts. */
  function Names(k: Kind): set<string> {
    NamesOf(Schema(k))
  }

  predicate DistinctNames(specs: seq<FieldSpec>) {
    forall i, j :: 0 <= i < j < |specs| ==> specs[i].name != specs[j].name
  }

  /** A default fits its field: a fixed value defaults to itself, a fresh id
      only fills an identifier, the current time only a timestamp. */
  predicate RuleFitsShape(f: FieldSpec) {
    match f.rule
    case DefaultText(v) => f.shape == FixedText(v)
    case FreshId => f.shape.Identifier?
    case CurrentTime => f.shape.Timestamp?
    case _ => !f.shape.FixedText? && !f.shape.Identifier?
  }

  predicate GoodSchema(specs: seq<FieldSpec>) {
    DistinctNames(specs) && forall i :: 0 <= i < |specs| ==> RuleFitsShape(specs[i])
  }

  /** Two strings differ when their lengths or first characters do. */
  lemma Differ(a: string, b: string)
    requires |a| != |b| || (|a| > 0 && |b| > 0 && a[0] != b[0])
    ensures a != b
  {
  }

  /** A frozen record: its kind and its field mapping. Values may nest
      records (a bundle's `objects`). */
  datatype Record = Record(kind: Kind, fields: map<string, Value>)

  datatype Value =
    | Text(s: string)
    | TextList(xs: seq<string>)
    | Time(moment: Moment)
    | Objects(records: seq<Record>)

  /** A value supplied to a constructor. */
  datatype Arg =
    | StrArg(s: string)
    | StrListArg(xs: seq<string>)
    | DateArg(date: Date)
    | MomentArg(moment: Moment)
    | RecordArg(record: Record)
    | RecordListArg(records: seq<Record>)
    | OtherArg

  predicate ValidArg(a: Arg) {
    match a
    case DateArg(d) => ValidDate(d)
    case MomentArg(m) => ValidMoment(m)
    case _ => true
  }

  predicate ValidArgs(args: map<string, Arg>) {
    forall name :: name in args ==> ValidArg(args[name])
  }

  /** What the construction depends on beyond its arguments: the captured
      "now" (UTC), the id generator (`uuid(i)` is the `i`-th id it hands
      out), how many ids it has handed out, and the text date parser. */
  datatype Env = Env(now: DateTime, uuid: nat -> string, drawn: nat, parse: string -> Parsed)

  ghost predicate ValidEnv(env: Env) {
    Valid(env.now) && forall s :: ValidParsed(env.parse(s))
  }

  /** A record together with the generator state after building it. */
  datatype Built = Built(record: Record, drawn: nat)

  /** The value every current-time field of one construction receives. */
  function NowValue(env: Env): Value {
    Time(Aware(Zoned(env.now, 0)))
  }

  /** The id a construction generates when none is supplied. */
  function FreshIdFor(k: Kind, env: Env): string {
    IdPrefixOf(k) + env.uuid(env.drawn + 1)
  }

  /** The id of a record, if it has a textual one. */
  function IdOf(r: Record): Option<string> {
    if "id" in r.fields && r.fields["id"].Text? then Some(r.fields["id"].s) else None
  }

  /** `v` is an admissible stored value for a field of shape `shape` in a
      record of kind `k`. */
  predicate Fits(k: Kind, shape: Shape, v: Value) {
    match shape
    case FixedText(t) => v == Text(t)
    case Identifier => v.Text? && IsPrefix(IdPrefixOf(k), v.s)
    case FreeText => v.Text?
    case Reference => v.Text?
    case TextArray => v.TextList?
    case Timestamp => v.Time? && ValidMoment(v.moment)
    case ObjectList => v.Objects?
  }

  /** A field mapping conforms to `specs`: it holds only their fields,
      every field that is not optional, and values of the right shape. */
  predicate ConformsTo(k: Kind, specs: seq<FieldSpec>, fields: map<string, Value>) {
    && fields.Keys <= NamesOf(specs)
    && (forall i :: 0 <= i < |specs| && !specs[i].rule.Optional? ==> specs[i].name in fields)
    && (forall i :: 0 <= i < |specs| && specs[i].name in fields ==> Fits(k, specs[i].shape, fields[specs[i].name]))
  }

  /** A record conforms to its kind's schema. */
  predicate Conforms(r: Record) {
    ConformsTo(r.kind, Schema(r.kind), r.fields)
  }

  /** A supplied header field is acceptable: `type` and other fixed fields
      must hold their fixed text, `id` must start with `<tag>--`. */
  predicate HeaderOk(k: Kind, f: FieldSpec, args: map<string, Arg>) {
    f.name in args ==>
      match f.shape
      case FixedText(v) => args[f.name] == StrArg(v)
      case Identifier => args[f.name].StrArg? && IsPrefix(IdPrefixOf(k), args[f.name].s)
      case _ => true
  }

  /** The error a failed header field reports. */
  function HeaderFailure(k: Kind, f: FieldSpec): Error {
    if f.shape.FixedText? then FixedMismatch(ClassName(k), f.name, f.shape.text)
    else IdPrefix(ClassName(k), IdPrefixOf(k))
  }

  /** The position of the first header field, in declared order, that fails. */
  function FirstBadHeader(k: Kind, specs: seq<FieldSpec>, args: map<string, Arg>): (r: Option<nat>)
    ensures r.Some? ==> r.value < |specs| && !HeaderOk(k, specs[r.value], args)
    ensures r.Some? ==> forall j :: 0 <= j < r.value ==> HeaderOk(k, specs[j], args)
    ensures r.None? <==> forall j :: 0 <= j < |specs| ==> HeaderOk(k, specs[j], args)
  {
    if specs == [] then None
    else if !HeaderOk(k, specs[0], args) then Some(0)
    else
      match FirstBadHeader(k, specs[1..], args)
      case None => None
      case Some(i) => Some(i + 1)
  }

  /** The position of the first required field, in declared order, that was
      not supplied. */
  function FirstMissing(specs: seq<FieldSpec>, args: map<string, Arg>): (r: Option<nat>)
    ensures r.Some? ==> r.value < |specs| && specs[r.value].rule.Required? && specs[r.value].name !in args
    ensures r.Some? ==> forall j :: 0 <= j < r.value && specs[j].rule.Required? ==> specs[j].name in args
    ensures r.None? <==> forall j :: 0 <= j < |specs| && specs[j].rule.Required? ==> specs[j].name in args
  {
    if specs == [] then None
    else if specs[0].rule.Required? && specs[0].name !in args then Some(0)
    else
      match FirstMissing(specs[1..], args)
      case None => None
      case Some(i) => Some(i + 1)
  }

  /** What `parse_into_datetime` receives for a supplied argument. */
  function TimeInputOf(a: Arg): TimeInput {
    match a
    case StrArg(s) => TextValue(s)
    case DateArg(d) => DateValue(d)
    case MomentArg(m) => DateTimeValue(m)
    case _ => OtherValue
  }

  /** The argument that supplies a stored value unchanged. */
  function ArgOf(v: Value): (a: Arg)
    ensures ValidArg(a) <==> (v.Time? ==> ValidMoment(v.moment))
  {
    match v
    case Text(s) => StrArg(s)
    case TextList(xs) => StrListArg(xs)
    case Time(m) => MomentArg(m)
    case Objects(rs) => RecordListArg(rs)
  }

  /** Turns a supplied argument into the stored value for field `f`:
      fixed text and id prefixes are checked, timestamps go through
      `parse_into_datetime`, a record given for a reference stands for its
      id. */
  function Coerce(k: Kind, f: FieldSpec, a: Arg, env: Env): (r: Result<Value, Error>)
    requires ValidArg(a) && ValidEnv(env)
    ensures r.Ok? ==> Fits(k, f.shape, r.value)
    ensures f.shape.Timestamp? ==>
      (r.Ok? <==> ParseIntoDatetime(TimeInputOf(a), env.parse).Ok?)
    ensures f.shape.Reference? && a.RecordArg? && IdOf(a.record).Some? ==> r == Ok(Text(IdOf(a.record).value))
    ensures f.shape.Reference? && a.StrArg? ==> r == Ok(Text(a.s))
    ensures f.shape.ObjectList? && a.RecordListArg? ==> r == Ok(Objects(a.records))
    ensures r.Err? ==> !r.error.MissingRequired? && !r.error.UnexpectedFields?
    ensures (f.shape.FixedText? || f.shape.Identifier?) ==>
      (r.Ok? <==> HeaderOk(k, f, map[f.name := a])) && (r.Err? ==> r.error == HeaderFailure(k, f))
  {
    match f.shape
    case FixedText(t) => if a == StrArg(t) then Ok(Text(t)) else Err(HeaderFailure(k, f))
    case Identifier =>
      if a.StrArg? && IsPrefix(IdPrefixOf(k), a.s) then Ok(Text(a.s)) else Err(HeaderFailure(k, f))
    case FreeText => if a.StrArg? then Ok(Text(a.s)) else Err(InvalidValue(ClassName(k), f.name))
    case TextArray => if a.StrListArg? then Ok(TextList(a.xs)) else Err(InvalidValue(ClassName(k), f.name))
    case Timestamp =>
      var m :- ParseIntoDatetime(TimeInputOf(a), env.parse);
      Ok(Time(m))
    case Reference =>
      if a.StrArg? then Ok(Text(a.s))
      else if a.RecordArg? && IdOf(a.record).Some? then Ok(Text(IdOf(a.record).value))
      else Err(InvalidValue(ClassName(k), f.name))
    case ObjectList =>
      if a.RecordListArg? then Ok(Objects(a.records)) else Err(InvalidValue(ClassName(k), f.name))
  }

  /** Supplying a stored value again stores it unchanged. */
  lemma CoerceOfStored(k: Kind, f: FieldSpec, v: Value, env: Env)
    requires Fits(k, f.shape, v) && ValidEnv(env)
    ensures ValidArg(ArgOf(v))
    ensures Coerce(k, f, ArgOf(v), env) == Ok(v)
  {
  }

  /** The stored value of field `f`, if any: the coerced argument when one
      was supplied, otherwise the field's default. */
  function FieldValue(k: Kind, f: FieldSpec, args: map<string, Arg>, env: Env): (r: Result<Option<Value>, Error>)
    requires ValidArgs(args) && ValidEnv(env) && RuleFitsShape(f)
    ensures r.Ok? && r.value.Some? ==> Fits(k, f.shape, r.value.value)
    ensures f.name in args ==> r.Ok? == Coerce(k, f, args[f.name], env).Ok?
    ensures f.name in args && r.Ok? ==> r.value == Some(Coerce(k, f, args[f.name], env).value)
    ensures f.name !in args ==> (r.Ok? <==> !f.rule.Required?)
    ensures f.name !in args && r.Ok? ==> (r.value.None? <==> f.rule.Optional?)
    ensures f.name !in args && f.rule.CurrentTime? ==> r == Ok(Some(NowValue(env)))
    ensures f.name !in args && f.rule.FreshId? ==> r == Ok(Some(Text(FreshIdFor(k, env))))
  {
    if f.name in args then
      var v :- Coerce(k, f, args[f.name], env);
      Ok(Some(v))
    else
      match f.rule
      case Required => Err(MissingRequired(ClassName(k), f.name))
      case Optional => Ok(None)
      case DefaultText(v) => Ok(Some(Text(v)))
      case FreshId => Ok(Some(Text(FreshIdFor(k, env))))
      case CurrentTime => Ok(Some(NowValue(env)))
  }

  /** Coerces and defaults the fields in declared order; the first failure
      is the one reported. */
  function Fill(k: Kind, specs: seq<FieldSpec>, args: map<string, Arg>, env: Env): (r: Result<map<string, Value>, Error>)
    requires ValidArgs(args) && ValidEnv(env) && GoodSchema(specs)
    ensures r.Ok? ==> r.value.Keys <= NamesOf(specs)
    ensures r.Ok? <==> forall i :: 0 <= i < |specs| ==> FieldValue(k, specs[i], args, env).Ok?
    ensures r.Ok? ==> forall i :: 0 <= i < |specs| ==>
      (specs[i].name in r.value <==> FieldValue(k, specs[i], args, env).value.Some?)
    ensures r.Ok? ==> forall i :: 0 <= i < |specs| && specs[i].name in r.value ==>
      r.value[specs[i].name] == FieldValue(k, specs[i], args, env).value.value
    ensures r.Err? ==> exists i :: 0 <= i < |specs| && FieldValue(k, specs[i], args, env) == Err(r.error)
  {
    if specs == [] then Ok(map[])
    else
      var head :- FieldValue(k, specs[0], args, env);
      SchemaTail(specs);
      var tail :- Fill(k, specs[1..], args, env);
      var out := if head.Some? then tail[specs[0].name := head.value] else tail;
      Ok(out)
  }

  /** A schema without its first field is a schema that does not name it. */
  lemma SchemaTail(specs: seq<FieldSpec>)
    requires GoodSchema(specs) && specs != []
    ensures GoodSchema(specs[1..])
    ensures forall i :: 1 <= i < |specs| ==> specs[i] == specs[1..][i - 1]
    ensures NamesOf(specs) == {specs[0].name} + NamesOf(specs[1..])
    ensures specs[0].name !in NamesOf(specs[1..])
  {
    assert forall i :: 1 <= i < |specs| ==> specs[i] == specs[1..][i - 1];
    assert specs[0].name !in NamesOf(specs[1..]) by {
      forall i | 0 <= i < |specs[1..]|
        ensures specs[1..][i].name != specs[0].name
      {
        assert specs[1..][i] == specs[i + 1];
      }
    }
  }

  /** The supplied names that `specs` does not know. */
  function Unexpected(specs: seq<FieldSpec>, args: map<string, Arg>): set<string> {
    args.Keys - NamesOf(specs)
  }

  lemma NoneUnexpected(specs: seq<FieldSpec>, args: map<string, Arg>)
    requires Unexpected(specs, args) == {}
    ensures args.Keys <= NamesOf(specs)
  {
    forall name | name in args
      ensures name in NamesOf(specs)
    {
      assert name !in Unexpected(specs, args);
    }
  }

  /** The protocol over any schema: header fields in declared order, then
      the first missing required field, then coercion and defaults in
      declared order, then the unexpected names all together. */
  function Assemble(k: Kind, specs: seq<FieldSpec>, args: map<string, Arg>, env: Env): (r: Result<Built, Error>)
    requires ValidArgs(args) && ValidEnv(env) && GoodSchema(specs)
    ensures r.Ok? ==> r.value.record.kind == k && ConformsTo(k, specs, r.value.record.fields)
    ensures r.Ok? ==> args.Keys <= r.value.record.fields.Keys
    ensures r.Ok? ==> r.value.drawn == if "id" in args then env.drawn else env.drawn + 1
  {
    match FirstBadHeader(k, specs, args)
    case Some(i) => Err(HeaderFailure(k, specs[i]))
    case None =>
      match FirstMissing(specs, args)
      case Some(i) => Err(MissingRequired(ClassName(k), specs[i].name))
      case None =>
        var fields :- Fill(k, specs, args, env);
        if Unexpected(specs, args) != {} then Err(UnexpectedFields(Unexpected(specs, args)))
        else
          NoneUnexpected(specs, args);
          FilledConforms(k, specs, args, env, fields);
          Ok(Built(Record(k, fields), if "id" in args then env.drawn else env.drawn + 1))
  }

  /** A successful fill conforms to the schema and keeps every supplied
      field the schema knows. */
  lemma FilledConforms(k: Kind, specs: seq<FieldSpec>, args: map<string, Arg>, env: Env, fields: map<string, Value>)
    requires ValidArgs(args) && ValidEnv(env) && GoodSchema(specs)
    requires Fill(k, specs, args, env) == Ok(fields)
    requires args.Keys <= NamesOf(specs)
    ensures ConformsTo(k, specs, fields)
    ensures args.Keys <= fields.Keys
  {
    forall i | 0 <= i < |specs| && !specs[i].rule.Optional?
      ensures specs[i].name in fields
    {
      assert FieldValue(k, specs[i], args, env).Ok?;
    }
    forall i | 0 <= i < |specs| && specs[i].name in fields
      ensures Fits(k, specs[i].shape, fields[specs[i].name])
    {
      assert FieldValue(k, specs[i], args, env).Ok?;
    }
    forall name | name in args
      ensures name in fields
    {
      var i :| 0 <= i < |specs| && specs[i].name == name;
      assert FieldValue(k, specs[i], args, env).Ok?;
    }
  }

  /** Constructs a record of kind `k` from named arguments. */
  function Construct(k: Kind, args: map<string, Arg>, env: Env): (r: Result<Built, Error>)
    requires ValidArgs(args) && ValidEnv(env)
    ensures r.Ok? ==> Conforms(r.value.record) && r.value.record.kind == k
    ensures r.Ok? ==> args.Keys <= r.value.record.fields.Keys
    ensures r.Ok? ==> r.value.drawn == if "id" in args then env.drawn else env.drawn + 1
  {
    Assemble(k, Schema(k), args, env)
  }

  /** Field access; attribute access and key access both read this mapping. */
  function Get(r: Record, name: string): (v: Option<Value>)
    ensures v.Some? <==> name in r.fields
    ensures v.Some? ==> v.value == r.fields[name]
  {
    if name in r.fields then Some(r.fields[name]) else None
  }

  /** Any assignment to a constructed record fails. */
  function SetField(r: Record, name: string, v: Value): (res: Result<Record, Error>)
    ensures res.Err? && Message(res.error) == "Cannot modify properties after creation."
  {
    Err(Immutable)
  }

  /** The positional form `Relationship(source, relationship_type, target)`:
      the three positions name the keyword arguments. */
  function RelationshipOf(source: Arg, relationshipType: Arg, target: Arg, env: Env): Result<Built, Error>
    requires ValidArg(source) && ValidArg(relationshipType) && ValidArg(target) && ValidEnv(env)
  {
    Construct(Relationship, map["source_ref" := source, "relationship_type" := relationshipType, "target_ref" := target], env)
  }

  /** The arguments that supply every field of `r` unchanged. */
  function ArgsOf(r: Record): (args: map<string, Arg>)
    ensures args.Keys == r.fields.Keys
  {
    map name | name in r.fields :: ArgOf(r.fields[name])
  }

  /** A supplied `type` other than the tag is reported before anything else. */
  lemma TypeCheckedFirst(k: Kind, args: map<string, Arg>, env: Env)
    requires ValidArgs(args) && ValidEnv(env)
    requires "type" in args && args["type"] != StrArg(Tag(k))
    ensures Construct(k, args, env) == Err(FixedMismatch(ClassName(k), "type", Tag(k)))
  {
    assert !HeaderOk(k, Schema(k)[0], args);
  }

  /** With an acceptable or absent `type`, a supplied `id` without the
      `<tag>--` prefix is reported next, before any missing field. */
  lemma IdCheckedSecond(k: Kind, args: map<string, Arg>, env: Env)
    requires ValidArgs(args) && ValidEnv(env)
    requires "type" in args ==> args["type"] == StrArg(Tag(k))
    requires "id" in args && !(args["id"].StrArg? && IsPrefix(IdPrefixOf(k), args["id"].s))
    ensures Construct(k, args, env) == Err(IdPrefix(ClassName(k), IdPrefixOf(k)))
  {
    assert HeaderOk(k, Schema(k)[0], args);
    assert !HeaderOk(k, Schema(k)[1], args);
  }

  /** Exactly one missing field is reported: the first absent required one
      in declared order, once every header field is acceptable. */
  lemma MissingIsFirst(k: Kind, args: map<string, Arg>, env: Env, name: string)
    requires ValidArgs(args) && ValidEnv(env)
    ensures Construct(k, args, env) == Err(MissingRequired(ClassName(k), name)) <==>
      && (forall j :: 0 <= j < |Schema(k)| ==> HeaderOk(k, Schema(k)[j], args))
      && exists i :: 0 <= i < |Schema(k)| && Schema(k)[i].name == name && FirstMissing(Schema(k), args) == Some(i)
  {
    MissingIsFirstIn(k, Schema(k), args, env, name);
  }

  lemma MissingIsFirstIn(k: Kind, specs: seq<FieldSpec>, args: map<string, Arg>, env: Env, name: string)
    requires ValidArgs(args) && ValidEnv(env) && GoodSchema(specs)
    ensures Assemble(k, specs, args, env) == Err(MissingRequired(ClassName(k), name)) <==>
      && (forall j :: 0 <= j < |specs| ==> HeaderOk(k, specs[j], args))
      && exists i :: 0 <= i < |specs| && specs[i].name == name && FirstMissing(specs, args) == Some(i)
  {
    if FirstBadHeader(k, specs, args).None? && FirstMissing(specs, args).None? {
      FillNeverMissing(k, specs, args, env);
    }
  }

  /** Once every required field is supplied, filling cannot report one
      missing. */
  lemma FillNeverMissing(k: Kind, specs: seq<FieldSpec>, args: map<string, Arg>, env: Env)
    requires ValidArgs(args) && ValidEnv(env) && GoodSchema(specs) && FirstMissing(specs, args).None?
    ensures Fill(k, specs, args, env).Err? ==> !Fill(k, specs, args, env).error.MissingRequired?
  {
    var f := Fill(k, specs, args, env);
    if f.Err? {
      var i :| 0 <= i < |specs| && FieldValue(k, specs[i], args, env) == Err(f.error);
      assert specs[i].name in args;
    }
  }

  /** Every unknown name is reported, all together, once the header, the
      required fields and the coercions have passed. */
  lemma UnexpectedAllListed(k: Kind, args: map<string, Arg>, env: Env)
    requires ValidArgs(args) && ValidEnv(env)
    requires forall j :: 0 <= j < |Schema(k)| ==> HeaderOk(k, Schema(k)[j], args)
    requires FirstMissing(Schema(k), args).None?
    requires Fill(k, Schema(k), args, env).Ok?
    ensures Construct(k, args, env).Ok? <==> args.Keys <= Names(k)
    ensures !(args.Keys <= Names(k)) ==> Construct(k, args, env) == Err(UnexpectedFields(args.Keys - Names(k)))
  {
    UnexpectedAllListedIn(k, Schema(k), args, env);
  }

  lemma UnexpectedAllListedIn(k: Kind, specs: seq<FieldSpec>, args: map<string, Arg>, env: Env)
    requires ValidArgs(args) && ValidEnv(env) && GoodSchema(specs)
    requires FirstBadHeader(k, specs, args).None? && FirstMissing(specs, args).None?
    requires Fill(k, specs, args, env).Ok?
    ensures Assemble(k, specs, args, env).Ok? <==> args.Keys <= NamesOf(specs)
    ensures !(args.Keys <= NamesOf(specs)) ==>
      Assemble(k, specs, args, env) == Err(UnexpectedFields(args.Keys - NamesOf(specs)))
  {
    if args.Keys <= NamesOf(specs) {
      assert Unexpected(specs, args) == {};
    } else {
      var name :| name in args && name !in NamesOf(specs);
      assert name in Unexpected(specs, args);
    }
  }

  /** Every current-time field left to its default holds the one instant
      captured for the construction. */
  lemma SharedNow(k: Kind, args: map<string, Arg>, env: Env)
    requires ValidArgs(args) && ValidEnv(env) && Construct(k, args, env).Ok?
    ensures forall i :: 0 <= i < |Schema(k)| && Schema(k)[i].rule.CurrentTime? && Schema(k)[i].name !in args ==>
      Construct(k, args, env).value.record.fields[Schema(k)[i].name] == NowValue(env)
  {
    SharedNowIn(k, Schema(k), args, env);
  }

  lemma SharedNowIn(k: Kind, specs: seq<FieldSpec>, args: map<string, Arg>, env: Env)
    requires ValidArgs(args) && ValidEnv(env) && GoodSchema(specs) && Assemble(k, specs, args, env).Ok?
    ensures forall i :: 0 <= i < |specs| && specs[i].rule.CurrentTime? && specs[i].name !in args ==>
      Assemble(k, specs, args, env).value.record.fields[specs[i].name] == NowValue(env)
  {
    AssembledFill(k, specs, args, env);
  }

  /** Without a supplied `id`, the record's id is the tag, `--` and the next
      generated id, and exactly one id is consumed. */
  lemma FreshIdentifier(k: Kind, args: map<string, Arg>, env: Env)
    requires ValidArgs(args) && ValidEnv(env) && Construct(k, args, env).Ok? && "id" !in args
    ensures var b := Construct(k, args, env).value;
      && "id" in b.record.fields
      && b.record.fields["id"] == Text(IdPrefixOf(k) + env.uuid(env.drawn + 1))
      && b.drawn == env.drawn + 1
  {
    FreshIdentifierIn(k, Schema(k), args, env);
  }

  lemma FreshIdentifierIn(k: Kind, specs: seq<FieldSpec>, args: map<string, Arg>, env: Env)
    requires ValidArgs(args) && ValidEnv(env) && GoodSchema(specs)
    requires |specs| >= 2 && specs[1] == FieldSpec("id", Identifier, FreshId)
    requires Assemble(k, specs, args, env).Ok? && "id" !in args
    ensures var b := Assemble(k, specs, args, env).value;
      && "id" in b.record.fields
      && b.record.fields["id"] == Text(IdPrefixOf(k) + env.uuid(env.drawn + 1))
      && b.drawn == env.drawn + 1
  {
    AssembledFill(k, specs, args, env);
    var fields := Fill(k, specs, args, env).value;
    assert FieldValue(k, specs[1], args, env) == Ok(Some(Text(FreshIdFor(k, env))));
    assert fields["id"] == Text(FreshIdFor(k, env));
  }

  /** A successful construction stores exactly what the fill produced. */
  lemma AssembledFill(k: Kind, specs: seq<FieldSpec>, args: map<string, Arg>, env: Env)
    requires ValidArgs(args) && ValidEnv(env) && GoodSchema(specs) && Assemble(k, specs, args, env).Ok?
    ensures Fill(k, specs, args, env).Ok?
    ensures Assemble(k, specs, args, env).value.record == Record(k, Fill(k, specs, args, env).value)
    ensures Assemble(k, specs, args, env).value.drawn == if "id" in args then env.drawn else env.drawn + 1
  {
  }

  /** A supplied field holds its coerced argument. */
  lemma SuppliedKept(k: Kind, args: map<string, Arg>, env: Env, i: nat)
    requires ValidArgs(args) && ValidEnv(env) && Construct(k, args, env).Ok?
    requires i < |Schema(k)| && Schema(k)[i].name in args
    ensures Coerce(k, Schema(k)[i], args[Schema(k)[i].name], env).Ok?
    ensures Construct(k, args, env).value.record.fields[Schema(k)[i].name]
         == Coerce(k, Schema(k)[i], args[Schema(k)[i].name], env).value
  {
    SuppliedKeptIn(k, Schema(k), args, env, i);
  }

  lemma SuppliedKeptIn(k: Kind, specs: seq<FieldSpec>, args: map<string, Arg>, env: Env, i: nat)
    requires ValidArgs(args) && ValidEnv(env) && GoodSchema(specs) && Assemble(k, specs, args, env).Ok?
    requires i < |specs| && specs[i].name in args
    ensures Coerce(k, specs[i], args[specs[i].name], env).Ok?
    ensures Assemble(k, specs, args, env).value.record.fields[specs[i].name]
         == Coerce(k, specs[i], args[specs[i].name], env).value
  {
    AssembledFill(k, specs, args, env);
    assert FieldValue(k, specs[i], args, env).Ok?;
  }

  /** Supplying every field of a conforming record rebuilds that record
      and draws no id. */
  lemma Reconstruct(r: Record, env: Env)
    requires Conforms(r) && ValidEnv(env)
    ensures ValidArgs(ArgsOf(r))
    ensures Construct(r.kind, ArgsOf(r), env) == Ok(Built(r, env.drawn))
  {
    var specs := Schema(r.kind);
    assert specs[1].name in r.fields;
    ReassembleConforming(r, specs, env);
  }

  lemma ReassembleConforming(r: Record, specs: seq<FieldSpec>, env: Env)
    requires GoodSchema(specs) && ConformsTo(r.kind, specs, r.fields) && ValidEnv(env)
    ensures ValidArgs(ArgsOf(r))
    ensures Assemble(r.kind, specs, ArgsOf(r), env)
         == Ok(Built(r, if "id" in r.fields then env.drawn else env.drawn + 1))
  {
    var k, args := r.kind, ArgsOf(r);
    StoredArgsValid(r, specs);
    forall j | 0 <= j < |specs|
      ensures HeaderOk(k, specs[j], args)
      ensures FieldValue(k, specs[j], args, env) == Ok(if specs[j].name in r.fields then Some(r.fields[specs[j].name]) else None)
    {
      if specs[j].name in r.fields {
        CoerceOfStored(k, specs[j], r.fields[specs[j].name], env);
      }
    }
    assert FirstBadHeader(k, specs, args).None?;
    assert FirstMissing(specs, args).None?;
    var fields := Fill(k, specs, args, env).value;
    assert fields.Keys == r.fields.Keys by {
      forall name | name in r.fields
        ensures name in fields
      {
        var i :| 0 <= i < |specs| && specs[i].name == name;
        assert FieldValue(k, specs[i], args, env).value.Some?;
      }
      forall name | name in fields
        ensures name in r.fields
      {
        var i :| 0 <= i < |specs| && specs[i].name == name;
        assert FieldValue(k, specs[i], args, env).value.Some?;
      }
    }
    forall name | name in fields
      ensures fields[name] == r.fields[name]
    {
      var i :| 0 <= i < |specs| && specs[i].name == name;
      assert FieldValue(k, specs[i], args, env).value == Some(r.fields[name]);
    }
    assert fields == r.fields;
    assert Unexpected(specs, args) == {};
    assert Record(k, fields) == r;
  }

  /** The arguments built from a conforming record are valid ones. */
  lemma StoredArgsValid(r: Record, specs: seq<FieldSpec>)
    requires ConformsTo(r.kind, specs, r.fields)
    ensures ValidArgs(ArgsOf(r))
  {
    forall name | name in ArgsOf(r)
      ensures ValidArg(ArgsOf(r)[name])
    {
      var i :| 0 <= i < |specs| && specs[i].name == name;
      assert Fits(r.kind, specs[i].shape, r.fields[name]);
    }
  }

  /** The positional form with records for both ends succeeds, stores the
      records' ids and the relationship type, and draws one id. */
  lemma RelationshipFromRecords(source: Record, relationshipType: string, target: Record, env: Env)
    requires ValidEnv(env) && IdOf(source).Some? && IdOf(target).Some?
    ensures var r := RelationshipOf(RecordArg(source), StrArg(relationshipType), RecordArg(target), env);
      && r.Ok? && r.value.drawn == env.drawn + 1
      && var f := r.value.record.fields;
      && "relationship_type" in f && f["relationship_type"] == Text(relationshipType)
      && "source_ref" in f && f["source_ref"] == Text(IdOf(source).value)
      && "target_ref" in f && f["target_ref"] == Text(IdOf(target).value)
      && "id" in f && f["id"] == Text("relationship--" + env.uuid(env.drawn + 1))
  {
    var args := map["source_ref" := RecordArg(source), "relationship_type" := StrArg(relationshipType),
                    "target_ref" := RecordArg(target)];
    RelationshipArgsAccepted(args, env);
    SuppliedKept(Relationship, args, env, 4);
    SuppliedKept(Relationship, args, env, 5);
    SuppliedKept(Relationship, args, env, 6);
    FreshIdentifier(Relationship, args, env);
    assert IdPrefixOf(Relationship) == "relationship--";
  }

  lemma RelationshipArgsAccepted(args: map<string, Arg>, env: Env)
    requires ValidEnv(env) && args.Keys == {"relationship_type", "source_ref", "target_ref"}
    requires args["relationship_type"].StrArg?
    requires args["source_ref"].RecordArg? && IdOf(args["source_ref"].record).Some?
    requires args["target_ref"].RecordArg? && IdOf(args["target_ref"].record).Some?
    ensures ValidArgs(args)
    ensures Construct(Relationship, args, env).Ok?
    ensures Schema(Relationship)[4].name == "relationship_type"
    ensures Schema(Relationship)[5].name == "source_ref"
    ensures Schema(Relationship)[6].name == "target_ref"
  {
    var specs := Schema(Relationship);
    assert |specs| == 7;
    assert specs[4].name in NamesOf(specs) && specs[5].name in NamesOf(specs) && specs[6].name in NamesOf(specs);
    forall j | 0 <= j < |specs|
      ensures HeaderOk(Relationship, specs[j], args)
      ensures FieldValue(Relationship, specs[j], args, env).Ok?
    {
    }
    assert FirstBadHeader(Relationship, specs, args).None?;
    assert FirstMissing(specs, args).None?;
    assert Unexpected(specs, args) == {};
  }

  lemma BundleSchema()
    ensures |Schema(Bundle)| == 4
    ensures Schema(Bundle)[2] == FieldSpec("spec_version", FixedText("2.0"), DefaultText("2.0"))
    ensures Schema(Bundle)[3] == FieldSpec("objects", ObjectList, Optional)
    ensures Tag(Bundle) == "bundle" && ClassName(Bundle) == "Bundle"
  {
  }

  /** A bundle always holds `type` "bundle" and `spec_version` "2.0", and
      keeps a supplied list of objects as given, order included. */
  lemma BundleFixedFields(args: map<string, Arg>, env: Env)
    requires ValidArgs(args) && ValidEnv(env) && Construct(Bundle, args, env).Ok?
    ensures var f := Construct(Bundle, args, env).value.record.fields;
      && "type" in f && f["type"] == Text("bundle")
      && "spec_version" in f && f["spec_version"] == Text("2.0")
      && ("objects" in args && args["objects"].RecordListArg? ==>
            "objects" in f && f["objects"] == Objects(args["objects"].records))
  {
    BundleSchema();
    var f := Construct(Bundle, args, env).value.record.fields;
    assert Fits(Bundle, Schema(Bundle)[0].shape, f["type"]);
    assert Fits(Bundle, Schema(Bundle)[2].shape, f["spec_version"]);
    if "objects" in args && args["objects"].RecordListArg? {
      SuppliedKept(Bundle, args, env, 3);
    }
  }

  /** With acceptable or absent `type` and `id`, any `spec_version` other
      than "2.0" is rejected. */
  lemma BundleRejectsSpecVersion(args: map<string, Arg>, env: Env)
    requires ValidArgs(args) && ValidEnv(env)
    requires "type" in args ==> args["type"] == StrArg("bundle")
    requires "id" in args ==> args["id"].StrArg? && IsPrefix("bundle--", args["id"].s)
    requires "spec_version" in args && args["spec_version"] != StrArg("2.0")
    ensures Construct(Bundle, args, env) == Err(FixedMismatch("Bundle", "spec_version", "2.0"))
  {
    BundleSchema();
    assert IdPrefixOf(Bundle) == "bundle--";
    assert HeaderOk(Bundle, Schema(Bundle)[0], args);
    assert HeaderOk(Bundle, Schema(Bundle)[1], args);
    assert !HeaderOk(Bundle, Schema(Bundle)[2], args);
  }

  /** A bundle with no arguments at all is built, with a generated id. */
  lemma EmptyBundle(env: Env)
    requires ValidEnv(env)
    ensures var r := Construct(Bundle, map[], env);
      && r.Ok? && r.value.drawn == env.drawn + 1
      && "id" in r.value.record.fields
      && r.value.record.fields["id"] == Text("bundle--" + env.uuid(env.drawn + 1))
  {
    var args: map<string, Arg> := map[];
    BundleSchema();
    var specs := Schema(Bundle);
    forall j | 0 <= j < |specs|
      ensures HeaderOk(Bundle, specs[j], args)
      ensures FieldValue(Bundle, specs[j], args, env).Ok?
    {
    }
    assert FirstBadHeader(Bundle, specs, args).None?;
    assert FirstMissing(specs, args).None?;
    assert Unexpected(specs, args) == {};
    FreshIdentifier(Bundle, args, env);
    assert IdPrefixOf(Bundle) == "bundle--";
  }
}
