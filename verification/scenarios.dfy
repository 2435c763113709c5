/** Concrete cases from the library's own test module: the timestamp
    formatting table, the exact error texts, and the fields a minimal
    indicator receives under a fixed clock and id generator. */
module Scenarios {
  import opened Results
  import opened Errors
  import opened StringOrder
  import opened Calendar
  import opened Digits
  import opened Timestamps
  import opened Records

  /** Two- and four-digit fields, digit by digit. */
  lemma PadTwo(n: nat)
    requires n < 100
    ensures Pad(n, 2) == [DigitChar(n / 10), DigitChar(n % 10)]
  {
    var t := n / 10;
    assert t < 10 && t % 10 == t && t / 10 == 0;
    assert Pad(t, 1) == Pad(0, 0) + [DigitChar(t)];
    assert Pad(n, 2) == Pad(t, 1) + [DigitChar(n % 10)];
  }

  lemma PadFour(n: nat)
    requires n < 10000
    ensures Pad(n, 4) == [DigitChar(n / 1000), DigitChar(n / 100 % 10), DigitChar(n / 10 % 10), DigitChar(n % 10)]
  {
    PadTwo(n / 100);
    assert n / 100 / 10 == n / 1000 && n / 10 / 10 == n / 100 && n / 100 % 10 == n / 10 / 10 % 10;
    assert Pad(n, 4) == Pad(n / 100, 2) + [DigitChar(n / 10 % 10), DigitChar(n % 10)];
  }

  /** `%Y-%m-%d` written out digit by digit. */
  function DateDigits(y: nat, m: nat, d: nat): string
    requires y < 10000 && m < 100 && d < 100
  {
    [DigitChar(y / 1000), DigitChar(y / 100 % 10), DigitChar(y / 10 % 10), DigitChar(y % 10), '-',
     DigitChar(m / 10), DigitChar(m % 10), '-', DigitChar(d / 10), DigitChar(d % 10)]
  }

  /** `%H:%M:%S` written out digit by digit. */
  function ClockDigits(h: nat, m: nat, s: nat): string
    requires h < 100 && m < 100 && s < 100
  {
    [DigitChar(h / 10), DigitChar(h % 10), ':', DigitChar(m / 10), DigitChar(m % 10), ':',
     DigitChar(s / 10), DigitChar(s % 10)]
  }

  lemma DateText(y: nat, m: nat, d: nat)
    requires y < 10000 && m < 100 && d < 100
    ensures RenderDate(y, m, d) == DateDigits(y, m, d)
  {
    PadFour(y);
    PadTwo(m);
    PadTwo(d);
  }

  lemma ClockText(h: nat, m: nat, s: nat)
    requires h < 100 && m < 100 && s < 100
    ensures RenderClock(h, m, s) == ClockDigits(h, m, s)
  {
    PadTwo(h);
    PadTwo(m);
    PadTwo(s);
  }

  /** A pytz-localised value: the zone's offset for that wall-clock reading,
      in minutes east of UTC. */
  function Localized(y: int, mo: int, d: int, h: int, mi: int, s: int, offset: int): Moment {
    Aware(Zoned(DateTime(Date(y, mo, d), h, mi, s, 0), offset))
  }

  /** The rendering of a UTC reading with no fraction of a second. */
  function WholeText(u: DateTime): string
    requires 0 <= u.date.year < 10000 && 0 <= u.date.month < 100 && 0 <= u.date.day < 100
    requires 0 <= u.hour < 100 && 0 <= u.minute < 100 && 0 <= u.second < 100
  {
    DateDigits(u.date.year, u.date.month, u.date.day) + "T" + ClockDigits(u.hour, u.minute, u.second) + "Z"
  }

  /** A UTC reading with no fraction of a second renders digit by digit. */
  lemma RenderWholeText(u: DateTime)
    requires Valid(u) && u.microsecond == 0
    ensures RenderUtc(u) == WholeText(u)
  {
    var date := RenderDate(u.date.year, u.date.month, u.date.day);
    var clock := RenderClock(u.hour, u.minute, u.second);
    assert Fraction(0) == "";
    assert RenderUtc(u) == date + "T" + clock + "Z";
    DateText(u.date.year, u.date.month, u.date.day);
    ClockText(u.hour, u.minute, u.second);
  }

  /** An aware value whose UTC reading `u` has no fraction of a second
      formats as `u` written out digit by digit. */
  lemma FormatsAs(m: Moment, u: DateTime)
    requires ValidMoment(m) && m.Aware? && ToUtc(m.zoned) == Ok(u) && u.microsecond == 0
    ensures FormatDateTime(m) == Ok(WholeText(u))
  {
    RenderWholeText(u);
    assert FormatDateTime(m) == Ok(RenderUtc(u));
  }

  /** UTC midnight renders as that day at midnight. */
  lemma FormatUtcMidnight()
    ensures FormatDateTime(Localized(2017, 1, 1, 0, 0, 0, 0)) == Ok("2017-01-01T00:00:00Z")
  {
    var m := Localized(2017, 1, 1, 0, 0, 0, 0);
    var u := DateTime(Date(2017, 1, 1), 0, 0, 0, 0);
    assert WholeText(u) == "2017-01-01T00:00:00Z";
    assert ToUtc(m.zoned) == Ok(u) by { ToUtcUnique(m.zoned, u); }
    FormatsAs(m, u);
  }

  /** The naive midnight of 2017-01-01: as written, formatting it reads the
      unassigned `zoned`; as intended, it formats like UTC midnight. */
  lemma NaiveNewYear()
    ensures FormatDateTime(Naive(DateTime(Date(2017, 1, 1), 0, 0, 0, 0))) == Err(UnboundZoned)
    ensures FormatDateTimeIntended(Naive(DateTime(Date(2017, 1, 1), 0, 0, 0, 0))) == Ok("2017-01-01T00:00:00Z")
  {
    FormatUtcMidnight();
    assert Localized(2017, 1, 1, 0, 0, 0, 0) == Aware(Zoned(DateTime(Date(2017, 1, 1), 0, 0, 0, 0), 0));
  }

  /** Amsterdam midnight on New Year's Day (UTC+1) is the previous
      evening in UTC. */
  lemma FormatAmsterdamNewYear()
    ensures FormatDateTime(Localized(2017, 1, 1, 0, 0, 0, 60)) == Ok("2016-12-31T23:00:00Z")
  {
    var m := Localized(2017, 1, 1, 0, 0, 0, 60);
    var u := DateTime(Date(2016, 12, 31), 23, 0, 0, 0);
    assert WholeText(u) == "2016-12-31T23:00:00Z";
    assert ToUtc(m.zoned) == Ok(u) by {
      assert Ordinal(Date(2017, 1, 1)) == Ordinal(Date(2016, 12, 31)) + 1;
      ToUtcUnique(m.zoned, u);
    }
    FormatsAs(m, u);
  }

  /** New York in winter (UTC-5). */
  lemma FormatEasternWinter()
    ensures FormatDateTime(Localized(2017, 1, 1, 12, 34, 56, -300)) == Ok("2017-01-01T17:34:56Z")
  {
    var m := Localized(2017, 1, 1, 12, 34, 56, -300);
    var u := DateTime(Date(2017, 1, 1), 17, 34, 56, 0);
    assert WholeText(u) == "2017-01-01T17:34:56Z";
    assert ToUtc(m.zoned) == Ok(u) by { ToUtcUnique(m.zoned, u); }
    FormatsAs(m, u);
  }

  /** New York in summer (UTC-4). */
  lemma FormatEasternSummer()
    ensures FormatDateTime(Localized(2017, 7, 1, 0, 0, 0, -240)) == Ok("2017-07-01T04:00:00Z")
  {
    var m := Localized(2017, 7, 1, 0, 0, 0, -240);
    var u := DateTime(Date(2017, 7, 1), 4, 0, 0, 0);
    assert WholeText(u) == "2017-07-01T04:00:00Z";
    assert ToUtc(m.zoned) == Ok(u) by { ToUtcUnique(m.zoned, u); }
    FormatsAs(m, u);
  }

  /** The fixtures' environment: the clock frozen at `FAKE_TIME`, an id
      generator that has handed out nothing yet, and a text parser no case
      below reaches. */
  function Fixture(uuid: nat -> string): Env {
    Env(DateTime(Date(2017, 1, 1), 12, 34, 56, 0), uuid, 0, s => Unparseable)
  }

  lemma FixtureValid(uuid: nat -> string)
    ensures ValidEnv(Fixture(uuid))
  {
  }

  const Pattern := "[file:hashes.MD5 = 'd41d8cd98f00b204e9800998ecf8427e']"

  /** The minimum arguments of an indicator. */
  const IndicatorKwargs: map<string, Arg> :=
    map["labels" := StrListArg(["malicious-activity"]), "pattern" := StrArg(Pattern)]

  /** The field names of an indicator, in declared order. */
  lemma IndicatorNames()
    ensures |Schema(Indicator)| == 7
    ensures Schema(Indicator)[4].name == "labels" && Schema(Indicator)[5].name == "pattern"
    ensures Names(Indicator) == {"type", "id", "created", "modified", "labels", "pattern", "valid_from"}
    ensures forall i :: 0 <= i < |Schema(Indicator)| ==> !Schema(Indicator)[i].rule.Optional?
  {
    var specs := Schema(Indicator);
    var listed := {"type", "id", "created", "modified", "labels", "pattern", "valid_from"};
    forall i | 0 <= i < |specs|
      ensures specs[i].name in listed
    {
    }
    assert specs[0].name in NamesOf(specs) && specs[1].name in NamesOf(specs) && specs[2].name in NamesOf(specs);
    assert specs[3].name in NamesOf(specs) && specs[4].name in NamesOf(specs) && specs[5].name in NamesOf(specs);
    assert specs[6].name in NamesOf(specs);
  }

  /** Arguments that supply `labels` and `pattern` of the right shapes and
      nothing else the indicator schema knows pass every check before the
      unexpected-name one. */
  lemma IndicatorArgsFill(args: map<string, Arg>, env: Env)
    requires ValidEnv(env) && args.Keys <= {"labels", "pattern", "my_custom_property"}
    requires "labels" in args && args["labels"].StrListArg?
    requires "pattern" in args && args["pattern"].StrArg?
    requires "my_custom_property" in args ==> args["my_custom_property"].StrArg?
    ensures ValidArgs(args)
    ensures forall j :: 0 <= j < |Schema(Indicator)| ==> HeaderOk(Indicator, Schema(Indicator)[j], args)
    ensures FirstMissing(Schema(Indicator), args).None?
    ensures Fill(Indicator, Schema(Indicator), args, env).Ok?
  {
    var specs := Schema(Indicator);
    IndicatorNames();
    forall j | 0 <= j < |specs|
      ensures HeaderOk(Indicator, specs[j], args)
      ensures FieldValue(Indicator, specs[j], args, env).Ok?
    {
    }
  }

  /** A list of strings given for a list field is stored as it is. */
  lemma CoerceTextArray(f: FieldSpec, xs: seq<string>, env: Env)
    requires f.shape == TextArray && ValidEnv(env)
    ensures Coerce(Indicator, f, StrListArg(xs), env) == Ok(TextList(xs))
  {
  }

  /** The fields the test expects of an indicator built from the minimum
      arguments under the fixtures. */
  predicate AutogeneratedAsExpected(f: map<string, Value>, uuid: nat -> string) {
    var now := Time(Aware(Zoned(DateTime(Date(2017, 1, 1), 12, 34, 56, 0), 0)));
    && f.Keys == {"type", "id", "created", "modified", "labels", "pattern", "valid_from"}
    && "type" in f && f["type"] == Text("indicator")
    && "id" in f && f["id"] == Text("indicator--" + uuid(1))
    && "created" in f && f["created"] == now
    && "modified" in f && f["modified"] == now
    && "valid_from" in f && f["valid_from"] == now
    && "labels" in f && f["labels"] == TextList(["malicious-activity"])
    && "pattern" in f && f["pattern"] == Text(Pattern)
  }

  /** The minimum arguments build an indicator under any valid environment. */
  lemma IndicatorBuilt(env: Env)
    requires ValidEnv(env)
    ensures ValidArgs(IndicatorKwargs)
    ensures Construct(Indicator, IndicatorKwargs, env).Ok?
  {
    var args := IndicatorKwargs;
    IndicatorArgsFill(args, env);
    IndicatorNames();
    assert args.Keys <= Names(Indicator);
    UnexpectedAllListed(Indicator, args, env);
  }

  /** The malware's fields written out. */
  lemma MalwareSchema()
    ensures Schema(Malware) == [
      FieldSpec("type", FixedText("malware"), DefaultText("malware")),
      FieldSpec("id", Identifier, FreshId),
      FieldSpec("created", Timestamp, CurrentTime),
      FieldSpec("modified", Timestamp, CurrentTime),
      FieldSpec("labels", TextArray, Required),
      FieldSpec("name", FreeText, Required)]
  {
    Spelled();
  }

  /** The indicator's fields written out. */
  lemma IndicatorSchema()
    ensures Schema(Indicator) == [
      FieldSpec("type", FixedText("indicator"), DefaultText("indicator")),
      FieldSpec("id", Identifier, FreshId),
      FieldSpec("created", Timestamp, CurrentTime),
      FieldSpec("modified", Timestamp, CurrentTime),
      FieldSpec("labels", TextArray, Required),
      FieldSpec("pattern", FreeText, Required),
      FieldSpec("valid_from", Timestamp, CurrentTime)]
  {
    Spelled();
  }

  /** An indicator has no optional field, so every one of its fields is set. */
  lemma IndicatorHasEveryField(args: map<string, Arg>, env: Env)
    requires ValidArgs(args) && ValidEnv(env) && Construct(Indicator, args, env).Ok?
    ensures Construct(Indicator, args, env).value.record.fields.Keys == Names(Indicator)
  {
    var f := Construct(Indicator, args, env).value.record.fields;
    var specs := Schema(Indicator);
    IndicatorNames();
    assert Conforms(Construct(Indicator, args, env).value.record);
    forall name | name in Names(Indicator)
      ensures name in f
    {
      var i :| 0 <= i < |specs| && specs[i].name == name;
      assert !specs[i].rule.Optional?;
    }
  }

  /** The supplied list and text of the minimum arguments are stored as given. */
  lemma IndicatorKeepsArguments(env: Env)
    requires ValidEnv(env) && ValidArgs(IndicatorKwargs) && Construct(Indicator, IndicatorKwargs, env).Ok?
    ensures var f := Construct(Indicator, IndicatorKwargs, env).value.record.fields;
      && "labels" in f && f["labels"] == TextList(["malicious-activity"])
      && "pattern" in f && f["pattern"] == Text(Pattern)
  {
    var args := IndicatorKwargs;
    IndicatorNames();
    var labels := FieldSpec("labels", TextArray, Required);
    assert Schema(Indicator)[4] == labels;
    CoerceTextArray(labels, ["malicious-activity"], env);
    SuppliedKept(Indicator, args, env, 4);
    var pattern := FieldSpec("pattern", FreeText, Required);
    assert Schema(Indicator)[5] == pattern;
    SuppliedKept(Indicator, args, env, 5);
  }

  /** The argument map of a single keyword. */
  function One(name: string, a: Arg): map<string, Arg> {
    map[name := a]
  }

  /* The exact texts the tests look for, one error value at a time. */

  lemma TypeTextIndicator()
    ensures Message(FixedMismatch("Indicator", "type", "indicator")) == "Indicator must have type='indicator'."
  {
    assert "Indicator" + " must have " == "Indicator must have ";
    assert "Indicator must have " + "type" == "Indicator must have type";
    assert "Indicator must have type" + "='" == "Indicator must have type='";
    assert "Indicator must have type='" + "indicator" == "Indicator must have type='indicator";
    assert "Indicator must have type='indicator" + "'." == "Indicator must have type='indicator'.";
  }

  lemma TypeTextMalware()
    ensures Message(FixedMismatch("Malware", "type", "malware")) == "Malware must have type='malware'."
  {
    assert "Malware" + " must have " == "Malware must have ";
    assert "Malware must have " + "type" == "Malware must have type";
    assert "Malware must have type" + "='" == "Malware must have type='";
    assert "Malware must have type='" + "malware" == "Malware must have type='malware";
    assert "Malware must have type='malware" + "'." == "Malware must have type='malware'.";
  }

  lemma TypeTextRelationship()
    ensures Message(FixedMismatch("Relationship", "type", "relationship")) == "Relationship must have type='relationship'."
  {
    assert "Relationship" + " must have " == "Relationship must have ";
    assert "Relationship must have " + "type" == "Relationship must have type";
    assert "Relationship must have type" + "='" == "Relationship must have type='";
    assert "Relationship must have type='" + "relationship" == "Relationship must have type='relationship";
    assert "Relationship must have type='relationship" + "'." == "Relationship must have type='relationship'.";
  }

  lemma TypeTextBundle()
    ensures Message(FixedMismatch("Bundle", "type", "bundle")) == "Bundle must have type='bundle'."
  {
    assert "Bundle" + " must have " == "Bundle must have ";
    assert "Bundle must have " + "type" == "Bundle must have type";
    assert "Bundle must have type" + "='" == "Bundle must have type='";
    assert "Bundle must have type='" + "bundle" == "Bundle must have type='bundle";
    assert "Bundle must have type='bundle" + "'." == "Bundle must have type='bundle'.";
  }

  lemma SpecVersionText()
    ensures Message(FixedMismatch("Bundle", "spec_version", "2.0")) == "Bundle must have spec_version='2.0'."
  {
    assert "Bundle" + " must have " == "Bundle must have ";
    assert "Bundle must have " + "spec_version" == "Bundle must have spec_version";
    assert "Bundle must have spec_version" + "='" == "Bundle must have spec_version='";
    assert "Bundle must have spec_version='" + "2.0" == "Bundle must have spec_version='2.0";
    assert "Bundle must have spec_version='2.0" + "'." == "Bundle must have spec_version='2.0'.";
  }

  lemma IdTextIndicator()
    ensures Message(IdPrefix("Indicator", "indicator--")) == "Indicator id values must begin with 'indicator--'."
  {
    assert "Indicator" + " id values must begin with '" == "Indicator id values must begin with '";
    assert "Indicator id values must begin with '" + "indicator--" == "Indicator id values must begin with 'indicator--";
    assert "Indicator id values must begin with 'indicator--" + "'." == "Indicator id values must begin with 'indicator--'.";
  }

  lemma IdTextMalware()
    ensures Message(IdPrefix("Malware", "malware--")) == "Malware id values must begin with 'malware--'."
  {
    assert "Malware" + " id values must begin with '" == "Malware id values must begin with '";
    assert "Malware id values must begin with '" + "malware--" == "Malware id values must begin with 'malware--";
    assert "Malware id values must begin with 'malware--" + "'." == "Malware id values must begin with 'malware--'.";
  }

  lemma IdTextRelationship()
    ensures Message(IdPrefix("Relationship", "relationship--")) == "Relationship id values must begin with 'relationship--'."
  {
    assert "Relationship" + " id values must begin with '" == "Relationship id values must begin with '";
    assert "Relationship id values must begin with '" + "relationship--" == "Relationship id values must begin with 'relationship--";
    assert "Relationship id values must begin with 'relationship--" + "'." == "Relationship id values must begin with 'relationship--'.";
  }

  lemma IdTextBundle()
    ensures Message(IdPrefix("Bundle", "bundle--")) == "Bundle id values must begin with 'bundle--'."
  {
    assert "Bundle" + " id values must begin with '" == "Bundle id values must begin with '";
    assert "Bundle id values must begin with '" + "bundle--" == "Bundle id values must begin with 'bundle--";
    assert "Bundle id values must begin with 'bundle--" + "'." == "Bundle id values must begin with 'bundle--'.";
  }

  lemma MissingTextIndicatorLabels()
    ensures Message(MissingRequired("Indicator", "labels")) == "Missing required field for Indicator: 'labels'."
  {
    assert "Missing required field for " + "Indicator" == "Missing required field for Indicator";
    assert "Missing required field for Indicator" + ": '" == "Missing required field for Indicator: '";
    assert "Missing required field for Indicator: '" + "labels" == "Missing required field for Indicator: 'labels";
    assert "Missing required field for Indicator: 'labels" + "'." == "Missing required field for Indicator: 'labels'.";
  }

  lemma MissingTextIndicatorPattern()
    ensures Message(MissingRequired("Indicator", "pattern")) == "Missing required field for Indicator: 'pattern'."
  {
    assert "Missing required field for " + "Indicator" == "Missing required field for Indicator";
    assert "Missing required field for Indicator" + ": '" == "Missing required field for Indicator: '";
    assert "Missing required field for Indicator: '" + "pattern" == "Missing required field for Indicator: 'pattern";
    assert "Missing required field for Indicator: 'pattern" + "'." == "Missing required field for Indicator: 'pattern'.";
  }

  lemma MissingTextMalwareLabels()
    ensures Message(MissingRequired("Malware", "labels")) == "Missing required field for Malware: 'labels'."
  {
    assert "Missing required field for " + "Malware" == "Missing required field for Malware";
    assert "Missing required field for Malware" + ": '" == "Missing required field for Malware: '";
    assert "Missing required field for Malware: '" + "labels" == "Missing required field for Malware: 'labels";
    assert "Missing required field for Malware: 'labels" + "'." == "Missing required field for Malware: 'labels'.";
  }

  lemma MissingTextMalwareName()
    ensures Message(MissingRequired("Malware", "name")) == "Missing required field for Malware: 'name'."
  {
    assert "Missing required field for " + "Malware" == "Missing required field for Malware";
    assert "Missing required field for Malware" + ": '" == "Missing required field for Malware: '";
    assert "Missing required field for Malware: '" + "name" == "Missing required field for Malware: 'name";
    assert "Missing required field for Malware: 'name" + "'." == "Missing required field for Malware: 'name'.";
  }

  lemma MissingTextRelationshipType()
    ensures Message(MissingRequired("Relationship", "relationship_type")) == "Missing required field for Relationship: 'relationship_type'."
  {
    assert "Missing required field for " + "Relationship" == "Missing required field for Relationship";
    assert "Missing required field for Relationship" + ": '" == "Missing required field for Relationship: '";
    assert "Missing required field for Relationship: '" + "relationship_type" == "Missing required field for Relationship: 'relationship_type";
    assert "Missing required field for Relationship: 'relationship_type" + "'." == "Missing required field for Relationship: 'relationship_type'.";
  }

  lemma MissingTextRelationshipSource()
    ensures Message(MissingRequired("Relationship", "source_ref")) == "Missing required field for Relationship: 'source_ref'."
  {
    assert "Missing required field for " + "Relationship" == "Missing required field for Relationship";
    assert "Missing required field for Relationship" + ": '" == "Missing required field for Relationship: '";
    assert "Missing required field for Relationship: '" + "source_ref" == "Missing required field for Relationship: 'source_ref";
    assert "Missing required field for Relationship: 'source_ref" + "'." == "Missing required field for Relationship: 'source_ref'.";
  }

  lemma MissingTextRelationshipTarget()
    ensures Message(MissingRequired("Relationship", "target_ref")) == "Missing required field for Relationship: 'target_ref'."
  {
    assert "Missing required field for " + "Relationship" == "Missing required field for Relationship";
    assert "Missing required field for Relationship" + ": '" == "Missing required field for Relationship: '";
    assert "Missing required field for Relationship: '" + "target_ref" == "Missing required field for Relationship: 'target_ref";
    assert "Missing required field for Relationship: 'target_ref" + "'." == "Missing required field for Relationship: 'target_ref'.";
  }

  /** A single name sorts to itself. */
  lemma SortedSingle(x: string)
    ensures Sorted({x}) == [x]
  {
    assert x in Sorted({x});
  }

  /** The text of the unexpected-argument error the tests expect. */
  lemma UnexpectedFieldText()
    ensures Message(UnexpectedFields({"my_custom_property"})) == "unexpected keyword arguments: ['my_custom_property']"
  {
    var x := "my_custom_property";
    SortedSingle(x);
    CustomPropertyRepr();
    UnexpectedJoined();
  }

  lemma UnexpectedJoined()
    ensures "unexpected keyword arguments: " + "['my_custom_property']" == "unexpected keyword arguments: ['my_custom_property']"
  {
  }

  lemma CustomPropertyRepr()
    ensures ReprList(["my_custom_property"]) == "['my_custom_property']"
  {
    var x := "my_custom_property";
    assert ReprItems([x]) == "'" + x + "'";
    assert "[" + ("'" + x + "'") + "]" == "['my_custom_property']";
  }

  /** A `type` other than the tag is rejected first, for every kind. */
  lemma WrongTypeRejected(env: Env)
    requires ValidEnv(env)
    ensures Construct(Indicator, One("type", StrArg("xxx")), env) == Err(FixedMismatch("Indicator", "type", "indicator"))
    ensures Construct(Malware, One("type", StrArg("xxx")), env) == Err(FixedMismatch("Malware", "type", "malware"))
    ensures Construct(Relationship, One("type", StrArg("xxx")), env)
         == Err(FixedMismatch("Relationship", "type", "relationship"))
    ensures Construct(Bundle, One("type", StrArg("not-a-bundle")), env) == Err(FixedMismatch("Bundle", "type", "bundle"))
  {
    TypeCheckedFirst(Indicator, One("type", StrArg("xxx")), env);
    TypeCheckedFirst(Malware, One("type", StrArg("xxx")), env);
    TypeCheckedFirst(Relationship, One("type", StrArg("xxx")), env);
    TypeCheckedFirst(Bundle, One("type", StrArg("not-a-bundle")), env);
  }

  /** `my-prefix--` starts with none of the four id prefixes. */
  lemma ForeignPrefix(k: Kind)
    ensures !IsPrefix(IdPrefixOf(k), "my-prefix--")
  {
    var p, t := IdPrefixOf(k), "my-prefix--";
    if |p| <= |t| {
      assert t[..|p|][1] == 'y' && p[1] != 'y';
    }
  }

  /** An `id` without the kind's prefix is rejected, for every kind. */
  lemma WrongIdRejected(k: Kind, env: Env)
    requires ValidEnv(env)
    ensures ValidArgs(One("id", StrArg("my-prefix--")))
    ensures Construct(k, One("id", StrArg("my-prefix--")), env) == Err(IdPrefix(ClassName(k), IdPrefixOf(k)))
  {
    ForeignPrefix(k);
    IdCheckedSecond(k, One("id", StrArg("my-prefix--")), env);
  }

  /** The class names and id prefixes the messages quote. */
  lemma Spelled()
    ensures ClassName(Indicator) == "Indicator" && IdPrefixOf(Indicator) == "indicator--"
    ensures ClassName(Malware) == "Malware" && IdPrefixOf(Malware) == "malware--"
    ensures ClassName(Relationship) == "Relationship" && IdPrefixOf(Relationship) == "relationship--"
    ensures ClassName(Bundle) == "Bundle" && IdPrefixOf(Bundle) == "bundle--"
  {
    assert IdPrefixOf(Indicator) == "indicator" + "--";
    assert IdPrefixOf(Malware) == "malware" + "--";
    assert IdPrefixOf(Relationship) == "relationship" + "--";
    assert IdPrefixOf(Bundle) == "bundle" + "--";
  }

  /** A bundle's `spec_version` other than "2.0" is rejected. */
  lemma WrongSpecVersionRejected(env: Env)
    requires ValidEnv(env)
    ensures Construct(Bundle, One("spec_version", StrArg("1.2")), env) == Err(FixedMismatch("Bundle", "spec_version", "2.0"))
  {
    BundleRejectsSpecVersion(One("spec_version", StrArg("1.2")), env);
  }

  /** What the schemas of the three object kinds share: `type` then `id`
      as the only header fields, and required fields that hold text, a list
      of text, or a reference. */
  predicate ObjectSchema(specs: seq<FieldSpec>) {
    && GoodSchema(specs) && |specs| >= 2
    && specs[0].name == "type" && specs[0].shape.FixedText?
    && specs[1] == FieldSpec("id", Identifier, FreshId)
    && (forall j :: 2 <= j < |specs| ==> !specs[j].shape.FixedText? && !specs[j].shape.Identifier?)
    && (forall j :: 0 <= j < |specs| && specs[j].rule.Required? ==> specs[j].shape in {FreeText, TextArray, Reference})
  }

  lemma ObjectSchemas(k: Kind)
    requires k != Bundle
    ensures ObjectSchema(Schema(k))
  {
  }

  /** The header fields of every kind but `Bundle` are `type` and `id`
      alone, so arguments without those two pass the header checks. */
  lemma HeadersPass(k: Kind, args: map<string, Arg>)
    requires k != Bundle && "type" !in args && "id" !in args
    ensures forall j :: 0 <= j < |Schema(k)| ==> HeaderOk(k, Schema(k)[j], args)
  {
    ObjectSchemas(k);
    HeadersPassIn(k, Schema(k), args);
  }

  lemma HeadersPassIn(k: Kind, specs: seq<FieldSpec>, args: map<string, Arg>)
    requires ObjectSchema(specs) && "type" !in args && "id" !in args
    ensures forall j :: 0 <= j < |specs| ==> HeaderOk(k, specs[j], args)
  {
    forall j | 0 <= j < |specs|
      ensures HeaderOk(k, specs[j], args)
    {
      if j >= 2 {
        assert !specs[j].shape.FixedText? && !specs[j].shape.Identifier?;
      }
    }
  }

  /** The first absent required field is the one reported. */
  lemma MissingRejected(k: Kind, args: map<string, Arg>, env: Env, i: nat)
    requires ValidArgs(args) && ValidEnv(env) && k != Bundle && "type" !in args && "id" !in args
    requires i < |Schema(k)| && Schema(k)[i].rule.Required? && Schema(k)[i].name !in args
    requires forall j :: 0 <= j < i && Schema(k)[j].rule.Required? ==> Schema(k)[j].name in args
    ensures Construct(k, args, env) == Err(MissingRequired(ClassName(k), Schema(k)[i].name))
  {
    ObjectSchemas(k);
    MissingRejectedIn(k, Schema(k), args, env, i);
  }

  lemma MissingRejectedIn(k: Kind, specs: seq<FieldSpec>, args: map<string, Arg>, env: Env, i: nat)
    requires ValidArgs(args) && ValidEnv(env) && ObjectSchema(specs) && "type" !in args && "id" !in args
    requires i < |specs| && specs[i].rule.Required? && specs[i].name !in args
    requires forall j :: 0 <= j < i && specs[j].rule.Required? ==> specs[j].name in args
    ensures Assemble(k, specs, args, env) == Err(MissingRequired(ClassName(k), specs[i].name))
  {
    HeadersPassIn(k, specs, args);
    var m := FirstMissing(specs, args);
    assert m == Some(i) by {
      assert m.Some?;
      assert !(m.value > i);
      assert !(m.value < i);
    }
    MissingIsFirstIn(k, specs, args, env, specs[i].name);
  }

  /** The required fields of the three object kinds, in declared order. */
  lemma RequiredOrder()
    ensures forall j :: 0 <= j < 4 ==> !Schema(Indicator)[j].rule.Required?
    ensures Schema(Indicator)[4] == FieldSpec("labels", TextArray, Required)
    ensures Schema(Indicator)[5] == FieldSpec("pattern", FreeText, Required)
    ensures forall j :: 0 <= j < 4 ==> !Schema(Malware)[j].rule.Required?
    ensures Schema(Malware)[4] == FieldSpec("labels", TextArray, Required)
    ensures Schema(Malware)[5] == FieldSpec("name", FreeText, Required)
    ensures forall j :: 0 <= j < 4 ==> !Schema(Relationship)[j].rule.Required?
    ensures Schema(Relationship)[4] == FieldSpec("relationship_type", FreeText, Required)
    ensures Schema(Relationship)[5] == FieldSpec("source_ref", Reference, Required)
    ensures Schema(Relationship)[6] == FieldSpec("target_ref", Reference, Required)
  {
  }

  /** The missing-field cases of the tests: with nothing supplied the first
      required field is reported, and supplying it moves the report on. */
  lemma MissingIndicatorFields(env: Env)
    requires ValidEnv(env)
    ensures Construct(Indicator, map[], env) == Err(MissingRequired("Indicator", "labels"))
    ensures ValidArgs(One("labels", StrListArg(["malicious-activity"])))
    ensures Construct(Indicator, One("labels", StrListArg(["malicious-activity"])), env)
         == Err(MissingRequired("Indicator", "pattern"))
  {
    RequiredOrder();
    Spelled();
    MissingRejected(Indicator, map[], env, 4);
    MissingRejected(Indicator, One("labels", StrListArg(["malicious-activity"])), env, 5);
  }

  lemma MissingMalwareFields(env: Env)
    requires ValidEnv(env)
    ensures Construct(Malware, map[], env) == Err(MissingRequired("Malware", "labels"))
    ensures ValidArgs(One("labels", StrListArg(["ransomware"])))
    ensures Construct(Malware, One("labels", StrListArg(["ransomware"])), env)
         == Err(MissingRequired("Malware", "name"))
  {
    RequiredOrder();
    Spelled();
    MissingRejected(Malware, map[], env, 4);
    MissingRejected(Malware, One("labels", StrListArg(["ransomware"])), env, 5);
  }

  lemma MissingRelationshipFields(env: Env)
    requires ValidEnv(env)
    ensures Construct(Relationship, map[], env) == Err(MissingRequired("Relationship", "relationship_type"))
    ensures ValidArgs(One("relationship_type", StrArg("indicates")))
    ensures Construct(Relationship, One("relationship_type", StrArg("indicates")), env)
         == Err(MissingRequired("Relationship", "source_ref"))
    ensures ValidArgs(map["relationship_type" := StrArg("indicates"), "source_ref" := StrArg(IndicatorId)])
    ensures Construct(Relationship, map["relationship_type" := StrArg("indicates"), "source_ref" := StrArg(IndicatorId)], env)
         == Err(MissingRequired("Relationship", "target_ref"))
  {
    NothingSupplied(env);
    TypeSupplied(env);
    TypeAndSourceSupplied(env);
  }

  lemma NothingSupplied(env: Env)
    requires ValidEnv(env)
    ensures Construct(Relationship, map[], env) == Err(MissingRequired("Relationship", "relationship_type"))
  {
    RelationshipMissing(map[], env, 4);
  }

  lemma TypeSupplied(env: Env)
    requires ValidEnv(env)
    ensures ValidArgs(One("relationship_type", StrArg("indicates")))
    ensures Construct(Relationship, One("relationship_type", StrArg("indicates")), env)
         == Err(MissingRequired("Relationship", "source_ref"))
  {
    RequiredOrder();
    RelationshipMissing(One("relationship_type", StrArg("indicates")), env, 5);
  }

  lemma TypeAndSourceSupplied(env: Env)
    requires ValidEnv(env)
    ensures ValidArgs(map["relationship_type" := StrArg("indicates"), "source_ref" := StrArg(IndicatorId)])
    ensures Construct(Relationship, map["relationship_type" := StrArg("indicates"), "source_ref" := StrArg(IndicatorId)], env)
         == Err(MissingRequired("Relationship", "target_ref"))
  {
    var args := map["relationship_type" := StrArg("indicates"), "source_ref" := StrArg(IndicatorId)];
    RequiredOrder();
    assert "target_ref" !in args;
    RelationshipMissing(args, env, 6);
  }

  /** With the fields before position `i` supplied, the relationship
      field at `i` is the one reported. */
  lemma RelationshipMissing(args: map<string, Arg>, env: Env, i: nat)
    requires ValidEnv(env) && ValidArgs(args) && 4 <= i <= 6
    requires forall j :: 4 <= j < i ==> Schema(Relationship)[j].name in args
    requires Schema(Relationship)[i].name !in args && "type" !in args && "id" !in args
    ensures Construct(Relationship, args, env)
         == Err(MissingRequired("Relationship", ["relationship_type", "source_ref", "target_ref"][i - 4]))
  {
    RequiredOrder();
    Spelled();
    MissingRejected(Relationship, args, env, i);
  }

  const IndicatorId := "indicator--01234567-89ab-cdef-0123-456789abcdef"

  /** An unknown keyword added to the minimum arguments of a kind is
      reported on its own. */
  lemma UnexpectedRejected(k: Kind, args: map<string, Arg>, env: Env, extra: string, a: Arg)
    requires ValidEnv(env) && MinimumOf(k, args) && ValidArg(a)
    requires forall j :: 0 <= j < |Schema(k)| ==> Schema(k)[j].name != extra
    ensures ValidArgs(args[extra := a])
    ensures Construct(k, args[extra := a], env) == Err(UnexpectedFields({extra}))
  {
    ObjectSchemas(k);
    UnexpectedRejectedIn(k, Schema(k), args, env, extra, a);
  }

  lemma UnexpectedRejectedIn(k: Kind, specs: seq<FieldSpec>, args: map<string, Arg>, env: Env, extra: string, a: Arg)
    requires ValidEnv(env) && ObjectSchema(specs) && MinimumIn(specs, args) && ValidArg(a)
    requires forall j :: 0 <= j < |specs| ==> specs[j].name != extra
    ensures ValidArgs(args[extra := a])
    ensures Assemble(k, specs, args[extra := a], env) == Err(UnexpectedFields({extra}))
  {
    var all := args[extra := a];
    ExtendedPassesChecks(k, specs, args, env, extra, a);
    MinimumFills(k, specs, args, env, extra, a);
    UnexpectedAllListedIn(k, specs, all, env);
    OnlyExtraUnknown(specs, args, extra, a);
  }

  /** Of the minimum arguments plus `extra`, only `extra` is unknown. */
  lemma OnlyExtraUnknown(specs: seq<FieldSpec>, args: map<string, Arg>, extra: string, a: Arg)
    requires MinimumIn(specs, args)
    requires forall j :: 0 <= j < |specs| ==> specs[j].name != extra
    ensures args[extra := a].Keys - NamesOf(specs) == {extra}
  {
    var all := args[extra := a];
    forall name | name in all && name != extra
      ensures name in NamesOf(specs)
    {
      assert name in args;
      var j :| 0 <= j < |specs| && specs[j].name == name;
    }
    assert extra !in NamesOf(specs);
  }

  /** The minimum arguments plus an unknown keyword pass every check before
      the unexpected-name one. */
  lemma ExtendedPassesChecks(k: Kind, specs: seq<FieldSpec>, args: map<string, Arg>, env: Env, extra: string, a: Arg)
    requires ValidEnv(env) && ObjectSchema(specs) && MinimumIn(specs, args) && ValidArg(a)
    requires forall j :: 0 <= j < |specs| ==> specs[j].name != extra
    ensures ValidArgs(args[extra := a])
    ensures FirstBadHeader(k, specs, args[extra := a]).None?
    ensures FirstMissing(specs, args[extra := a]).None?
  {
    var all := args[extra := a];
    assert ValidArgs(all) by {
      forall name | name in all
        ensures ValidArg(all[name])
      {
        if name != extra {
          var j :| 0 <= j < |specs| && specs[j].name == name;
        }
      }
    }
    HeadersPassIn(k, specs, all);
    assert FirstMissing(specs, all).None? by {
      forall j | 0 <= j < |specs| && specs[j].rule.Required?
        ensures specs[j].name in all
      {
      }
    }
  }

  /** Every field of the schema has a value, supplied or defaulted. */
  lemma MinimumFills(k: Kind, specs: seq<FieldSpec>, args: map<string, Arg>, env: Env, extra: string, a: Arg)
    requires ValidEnv(env) && ObjectSchema(specs) && MinimumIn(specs, args) && ValidArg(a) && ValidArgs(args[extra := a])
    requires forall j :: 0 <= j < |specs| ==> specs[j].name != extra
    ensures Fill(k, specs, args[extra := a], env).Ok?
  {
    var all := args[extra := a];
    forall j | 0 <= j < |specs|
      ensures FieldValue(k, specs[j], all, env).Ok?
    {
      var name := specs[j].name;
      if name in all {
        assert name in args && all[name] == args[name];
        assert specs[j].shape in {FreeText, TextArray, Reference};
        assert Coerce(k, specs[j], args[name], env).Ok?;
      }
    }
  }

  /** The test's unknown keyword added to each kind's minimum arguments is
      reported on its own. */
  lemma CustomPropertyRejected(env: Env)
    requires ValidEnv(env)
    ensures ValidArgs(IndicatorKwargs["my_custom_property" := StrArg("foo")])
    ensures Construct(Indicator, IndicatorKwargs["my_custom_property" := StrArg("foo")], env)
         == Err(UnexpectedFields({"my_custom_property"}))
    ensures ValidArgs(MalwareKwargs["my_custom_property" := StrArg("foo")])
    ensures Construct(Malware, MalwareKwargs["my_custom_property" := StrArg("foo")], env)
         == Err(UnexpectedFields({"my_custom_property"}))
    ensures ValidArgs(RelationshipKwargs["my_custom_property" := StrArg("foo")])
    ensures Construct(Relationship, RelationshipKwargs["my_custom_property" := StrArg("foo")], env)
         == Err(UnexpectedFields({"my_custom_property"}))
  {
    var extra := "my_custom_property";
    CustomPropertyUnknown(Indicator);
    CustomPropertyUnknown(Malware);
    CustomPropertyUnknown(Relationship);
    MinimumKwargs();
    UnexpectedRejected(Indicator, IndicatorKwargs, env, extra, StrArg("foo"));
    UnexpectedRejected(Malware, MalwareKwargs, env, extra, StrArg("foo"));
    UnexpectedRejected(Relationship, RelationshipKwargs, env, extra, StrArg("foo"));
  }

  lemma CustomPropertyUnknown(k: Kind)
    ensures forall j :: 0 <= j < |Schema(k)| ==> Schema(k)[j].name != "my_custom_property"
  {
    forall j | 0 <= j < |Schema(k)|
      ensures Schema(k)[j].name != "my_custom_property"
    {
      Records.Differ(Schema(k)[j].name, "my_custom_property");
    }
  }

  /** The tests' minimum arguments supply exactly the required fields. */
  lemma MinimumKwargs()
    ensures MinimumOf(Indicator, IndicatorKwargs)
    ensures MinimumOf(Malware, MalwareKwargs)
    ensures MinimumOf(Relationship, RelationshipKwargs)
  {
    IndicatorMinimum();
    MalwareMinimum();
    RelationshipMinimum();
  }

  lemma IndicatorMinimum()
    ensures MinimumOf(Indicator, IndicatorKwargs)
  {
    var specs := Schema(Indicator);
    assert |specs| == 7;
    assert specs[4].name == "labels" && specs[5].name == "pattern";
  }

  lemma MalwareMinimum()
    ensures MinimumOf(Malware, MalwareKwargs)
  {
    var specs := Schema(Malware);
    assert |specs| == 6;
    assert specs[4].name == "labels" && specs[5].name == "name";
  }

  lemma RelationshipMinimum()
    ensures MinimumOf(Relationship, RelationshipKwargs)
  {
    var specs := Schema(Relationship);
    assert |specs| == 7;
    assert specs[4].name == "relationship_type" && specs[5].name == "source_ref" && specs[6].name == "target_ref";
  }

  /** `args` supplies exactly the required fields of kind `k`, as text, a
      list of text, or (for a reference) an id. */
  predicate MinimumOf(k: Kind, args: map<string, Arg>) {
    k != Bundle && MinimumIn(Schema(k), args)
  }

  predicate MinimumIn(specs: seq<FieldSpec>, args: map<string, Arg>) {
    && "type" !in args && "id" !in args
    && (forall j :: 0 <= j < |specs| ==> (specs[j].name in args <==> specs[j].rule.Required?))
    && (forall j :: 0 <= j < |specs| && specs[j].name in args ==>
          (if specs[j].shape.TextArray? then args[specs[j].name].StrListArg? else args[specs[j].name].StrArg?))
    && (forall name :: name in args ==> exists j :: 0 <= j < |specs| && specs[j].name == name)
  }

  const MalwareKwargs: map<string, Arg> := map["labels" := StrListArg(["ransomware"]), "name" := StrArg("Cryptolocker")]

  /** The malware id the tests use, its uuid written group by group. */
  const MalwareId := "malware--" + ("fedcba98" + "-7654" + "-3210" + "-fedc" + "-ba9876543210")

  const RelationshipKwargs: map<string, Arg> :=
    map["relationship_type" := StrArg("indicates"), "source_ref" := StrArg(IndicatorId), "target_ref" := StrArg(MalwareId)]
}
