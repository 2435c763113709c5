/** Constructions chained the way the test fixtures chain them: every
    construction that generates an id hands the generator state on to the
    next one, so ids come out in call order. */
module Fixtures {
  import opened Results
  import opened StringOrder
  import opened Calendar
  import opened Timestamps
  import opened Records
  import opened Scenarios

  /** Arguments supplying exactly the required fields of a kind, with the
      right shapes, always build a record. */
  lemma MinimumAccepted(k: Kind, args: map<string, Arg>, env: Env)
    requires ValidEnv(env) && MinimumOf(k, args)
    ensures ValidArgs(args)
    ensures Construct(k, args, env).Ok?
  {
    ObjectSchemas(k);
    MinimumAcceptedIn(k, Schema(k), args, env);
  }

  lemma MinimumAcceptedIn(k: Kind, specs: seq<FieldSpec>, args: map<string, Arg>, env: Env)
    requires ValidEnv(env) && ObjectSchema(specs) && MinimumIn(specs, args)
    ensures ValidArgs(args)
    ensures Assemble(k, specs, args, env).Ok?
  {
    assert ValidArgs(args) by {
      forall name | name in args
        ensures ValidArg(args[name])
      {
        var j :| 0 <= j < |specs| && specs[j].name == name;
      }
    }
    HeadersPassIn(k, specs, args);
    assert FirstMissing(specs, args).None?;
    forall j | 0 <= j < |specs|
      ensures FieldValue(k, specs[j], args, env).Ok?
    {
      if specs[j].name in args {
        assert specs[j].shape in {FreeText, TextArray, Reference};
      }
    }
    assert args.Keys <= NamesOf(specs) by {
      forall name | name in args
        ensures name in NamesOf(specs)
      {
        var j :| 0 <= j < |specs| && specs[j].name == name;
      }
    }
    UnexpectedAllListedIn(k, specs, args, env);
  }

  /** Such a construction draws the next id and stores it, behind the
      kind's prefix, as the record's id. */
  lemma MinimumFresh(k: Kind, args: map<string, Arg>, env: Env)
    requires ValidEnv(env) && MinimumOf(k, args)
    ensures ValidArgs(args) && Construct(k, args, env).Ok?
    ensures Construct(k, args, env).value.drawn == env.drawn + 1
    ensures IdOf(Construct(k, args, env).value.record) == Some(IdPrefixOf(k) + env.uuid(env.drawn + 1))
  {
    MinimumAccepted(k, args, env);
    FreshIdentifier(k, args, env);
  }

  /** Such a construction sets `type` to the kind's tag and every
      current-time field to the environment's clock. */
  lemma MinimumDefaults(k: Kind, args: map<string, Arg>, env: Env)
    requires ValidEnv(env) && MinimumOf(k, args)
    ensures ValidArgs(args) && Construct(k, args, env).Ok?
    ensures var b := Construct(k, args, env).value;
      var f := b.record.fields;
      && b.drawn == env.drawn + 1
      && "type" in f && f["type"] == Text(Tag(k))
      && "id" in f && f["id"] == Text(IdPrefixOf(k) + env.uuid(env.drawn + 1))
    ensures forall j :: 0 <= j < |Schema(k)| && Schema(k)[j].rule.CurrentTime? ==>
      Schema(k)[j].name in Construct(k, args, env).value.record.fields
      && Construct(k, args, env).value.record.fields[Schema(k)[j].name] == NowValue(env)
  {
    MinimumFresh(k, args, env);
    var b := Construct(k, args, env).value;
    assert b.record.fields["type"] == Text(Tag(k)) by {
      assert Conforms(b.record);
      assert Fits(k, Schema(k)[0].shape, b.record.fields["type"]);
    }
    SharedNow(k, args, env);
  }

  /** An indicator built from the minimum arguments under the fixtures gets
      type "indicator", the first generated id, the frozen clock for all
      three timestamps, and its two arguments as given. */
  lemma IndicatorAutogenerated(uuid: nat -> string)
    ensures ValidEnv(Fixture(uuid)) && ValidArgs(IndicatorKwargs)
    ensures Construct(Indicator, IndicatorKwargs, Fixture(uuid)).Ok?
    ensures Construct(Indicator, IndicatorKwargs, Fixture(uuid)).value.drawn == 1
    ensures AutogeneratedAsExpected(Construct(Indicator, IndicatorKwargs, Fixture(uuid)).value.record.fields, uuid)
  {
    var env := Fixture(uuid);
    FixtureValid(uuid);
    IndicatorMinimum();
    MinimumAccepted(Indicator, IndicatorKwargs, env);
    assert Construct(Indicator, IndicatorKwargs, env).value.record.fields.Keys
      == {"type", "id", "created", "modified", "labels", "pattern", "valid_from"} by {
      IndicatorHasEveryField(IndicatorKwargs, env);
      IndicatorNames();
    }
    IndicatorGenerated(uuid);
    IndicatorKeepsArguments(env);
  }

  /** The fields the fixtures generate for that indicator. */
  lemma IndicatorGenerated(uuid: nat -> string)
    ensures ValidEnv(Fixture(uuid)) && ValidArgs(IndicatorKwargs)
    ensures Construct(Indicator, IndicatorKwargs, Fixture(uuid)).Ok?
    ensures var b := Construct(Indicator, IndicatorKwargs, Fixture(uuid)).value;
      var f := b.record.fields;
      && b.drawn == 1
      && "type" in f && f["type"] == Text("indicator")
      && "id" in f && f["id"] == Text("indicator--" + uuid(1))
      && "created" in f && f["created"] == NowValue(Fixture(uuid))
      && "modified" in f && f["modified"] == NowValue(Fixture(uuid))
      && "valid_from" in f && f["valid_from"] == NowValue(Fixture(uuid))
  {
    var env := Fixture(uuid);
    FixtureValid(uuid);
    IndicatorMinimum();
    MinimumDefaults(Indicator, IndicatorKwargs, env);
    Spelled();
    IndicatorSchema();
    assert Schema(Indicator)[2].rule.CurrentTime? && Schema(Indicator)[3].rule.CurrentTime?;
    assert Schema(Indicator)[6].rule.CurrentTime?;
  }

  /** The generator state `drawn`, everything else as in `env`. */
  function After(env: Env, drawn: nat): Env {
    env.(drawn := drawn)
  }

  /** A bundle given only a list of records keeps that list as it is, in
      order, and draws one id. */
  lemma BundleOfObjects(objects: seq<Record>, env: Env)
    requires ValidEnv(env)
    ensures ValidArgs(One("objects", RecordListArg(objects)))
    ensures var r := Construct(Bundle, One("objects", RecordListArg(objects)), env);
      && r.Ok? && r.value.drawn == env.drawn + 1
      && var f := r.value.record.fields;
      && "objects" in f && f["objects"] == Objects(objects)
      && "id" in f && f["id"] == Text("bundle--" + env.uuid(env.drawn + 1))
  {
    var args := One("objects", RecordListArg(objects));
    var specs := Schema(Bundle);
    BundleSchema();
    forall j | 0 <= j < |specs|
      ensures HeaderOk(Bundle, specs[j], args)
      ensures FieldValue(Bundle, specs[j], args, env).Ok?
    {
    }
    assert FirstBadHeader(Bundle, specs, args).None?;
    assert FirstMissing(specs, args).None?;
    assert Unexpected(specs, args) == {};
    BundleFixedFields(args, env);
    FreshIdentifier(Bundle, args, env);
    Spelled();
  }

  /** The fixtures the bundle test requests, built in its order from the
      given minimum arguments: an indicator, a malware, a relationship from
      its own keyword arguments, then a bundle of all three, each
      construction starting from the generator state the previous one
      left. */
  function CallOrder(env: Env, indicatorArgs: map<string, Arg>, malwareArgs: map<string, Arg>,
                     relationshipArgs: map<string, Arg>): Result<seq<Built>, Errors.Error>
    requires ValidEnv(env) && ValidArgs(indicatorArgs) && ValidArgs(malwareArgs) && ValidArgs(relationshipArgs)
  {
    var ind :- Construct(Indicator, indicatorArgs, env);
    var mal :- Construct(Malware, malwareArgs, After(env, ind.drawn));
    var rel :- Construct(Relationship, relationshipArgs, After(env, mal.drawn));
    var bundle :- Construct(Bundle, One("objects", RecordListArg([ind.record, mal.record, rel.record])), After(env, rel.drawn));
    Ok([ind, mal, rel, bundle])
  }

  /** With any minimum arguments, every construction of the sequence
      succeeds and draws the next id (under the test fixtures, which start
      with nothing drawn, ids 1 to 4); the relationship stores the
      references it was given and the bundle keeps the three records in
      the order given. */
  lemma IdsInCallOrder(env: Env, indicatorArgs: map<string, Arg>, malwareArgs: map<string, Arg>,
                       relationshipArgs: map<string, Arg>)
    returns (ind: Built, mal: Built, rel: Built, bundle: Built)
    requires ValidEnv(env) && MinimumOf(Indicator, indicatorArgs) && MinimumOf(Malware, malwareArgs)
    requires MinimumOf(Relationship, relationshipArgs)
    ensures ValidArgs(indicatorArgs) && ValidArgs(malwareArgs) && ValidArgs(relationshipArgs)
    ensures CallOrder(env, indicatorArgs, malwareArgs, relationshipArgs) == Ok([ind, mal, rel, bundle])
    ensures ind.drawn == env.drawn + 1 && IdOf(ind.record) == Some("indicator--" + env.uuid(env.drawn + 1))
    ensures mal.drawn == env.drawn + 2 && IdOf(mal.record) == Some("malware--" + env.uuid(env.drawn + 2))
    ensures rel.drawn == env.drawn + 3 && IdOf(rel.record) == Some("relationship--" + env.uuid(env.drawn + 3))
    ensures bundle.drawn == env.drawn + 4 && IdOf(bundle.record) == Some("bundle--" + env.uuid(env.drawn + 4))
    ensures "source_ref" in relationshipArgs && relationshipArgs["source_ref"].StrArg?
    ensures "target_ref" in relationshipArgs && relationshipArgs["target_ref"].StrArg?
    ensures Get(rel.record, "source_ref") == Some(Text(relationshipArgs["source_ref"].s))
    ensures Get(rel.record, "target_ref") == Some(Text(relationshipArgs["target_ref"].s))
    ensures Get(bundle.record, "objects") == Some(Objects([ind.record, mal.record, rel.record]))
  {
    ind := Fresh(Indicator, indicatorArgs, env);
    mal := Fresh(Malware, malwareArgs, After(env, ind.drawn));
    rel := Fresh(Relationship, relationshipArgs, After(env, mal.drawn));
    RelationshipRefs(relationshipArgs, After(env, mal.drawn));
    BundleOfObjects([ind.record, mal.record, rel.record], After(env, rel.drawn));
    bundle := Construct(Bundle, One("objects", RecordListArg([ind.record, mal.record, rel.record])), After(env, rel.drawn)).value;
    CallOrderOf(env, indicatorArgs, malwareArgs, relationshipArgs, ind, mal, rel, bundle);
    assert IdPrefixOf(Indicator) == "indicator--" && IdPrefixOf(Malware) == "malware--"
        && IdPrefixOf(Relationship) == "relationship--" by {
      Spelled();
    }
  }

  /** The record a construction from minimum arguments yields, with the
      next id. */
  lemma Fresh(k: Kind, args: map<string, Arg>, env: Env) returns (b: Built)
    requires ValidEnv(env) && MinimumOf(k, args)
    ensures ValidArgs(args) && Construct(k, args, env) == Ok(b)
    ensures b.drawn == env.drawn + 1 && IdOf(b.record) == Some(IdPrefixOf(k) + env.uuid(env.drawn + 1))
  {
    MinimumFresh(k, args, env);
    b := Construct(k, args, env).value;
  }

  /** `CallOrder` collects the four constructions' results when each one
      succeeds from the state the previous one left. */
  lemma CallOrderOf(env: Env, indicatorArgs: map<string, Arg>, malwareArgs: map<string, Arg>,
                    relationshipArgs: map<string, Arg>, ind: Built, mal: Built, rel: Built, bundle: Built)
    requires ValidEnv(env) && ValidArgs(indicatorArgs) && ValidArgs(malwareArgs) && ValidArgs(relationshipArgs)
    requires Construct(Indicator, indicatorArgs, env) == Ok(ind)
    requires Construct(Malware, malwareArgs, After(env, ind.drawn)) == Ok(mal)
    requires Construct(Relationship, relationshipArgs, After(env, mal.drawn)) == Ok(rel)
    requires Construct(Bundle, One("objects", RecordListArg([ind.record, mal.record, rel.record])), After(env, rel.drawn))
          == Ok(bundle)
    ensures CallOrder(env, indicatorArgs, malwareArgs, relationshipArgs) == Ok([ind, mal, rel, bundle])
  {
  }

  /** A relationship built from its minimum arguments stores the two
      references as given. */
  lemma RelationshipRefs(args: map<string, Arg>, env: Env)
    requires ValidEnv(env) && MinimumOf(Relationship, args)
    ensures ValidArgs(args) && Construct(Relationship, args, env).Ok?
    ensures "source_ref" in args && args["source_ref"].StrArg?
    ensures "target_ref" in args && args["target_ref"].StrArg?
    ensures Get(Construct(Relationship, args, env).value.record, "source_ref") == Some(Text(args["source_ref"].s))
    ensures Get(Construct(Relationship, args, env).value.record, "target_ref") == Some(Text(args["target_ref"].s))
  {
    MinimumAccepted(Relationship, args, env);
    RequiredOrder();
    SuppliedKept(Relationship, args, env, 5);
    SuppliedKept(Relationship, args, env, 6);
  }

  /** The bundle test's fixtures under the frozen clock and a fresh
      generator: ids 1 to 4 in call order, the relationship holding the
      constant indicator and malware ids of its keyword arguments, and the
      bundle holding the three records in order. */
  lemma BundleTestFixtures(uuid: nat -> string) returns (ind: Built, mal: Built, rel: Built, bundle: Built)
    ensures ValidEnv(Fixture(uuid))
    ensures ValidArgs(IndicatorKwargs) && ValidArgs(MalwareKwargs) && ValidArgs(RelationshipKwargs)
    ensures CallOrder(Fixture(uuid), IndicatorKwargs, MalwareKwargs, RelationshipKwargs) == Ok([ind, mal, rel, bundle])
    ensures IdOf(ind.record) == Some("indicator--" + uuid(1)) && IdOf(mal.record) == Some("malware--" + uuid(2))
    ensures IdOf(rel.record) == Some("relationship--" + uuid(3)) && IdOf(bundle.record) == Some("bundle--" + uuid(4))
    ensures Get(rel.record, "source_ref") == Some(Text(IndicatorId))
    ensures Get(rel.record, "target_ref") == Some(Text(MalwareId))
    ensures Get(bundle.record, "objects") == Some(Objects([ind.record, mal.record, rel.record]))
  {
    FixtureValid(uuid);
    MinimumKwargs();
    ind, mal, rel, bundle := IdsInCallOrder(Fixture(uuid), IndicatorKwargs, MalwareKwargs, RelationshipKwargs);
    assert RelationshipKwargs["source_ref"] == StrArg(IndicatorId);
    assert RelationshipKwargs["target_ref"] == StrArg(MalwareId);
  }

  /** The positional form with two records, then a bundle of the three:
      the relationship takes the records' ids and the next id, the bundle
      the one after. */
  lemma RelationshipAndBundle(ind: Built, mal: Built, env: Env) returns (rel: Built, bundle: Built)
    requires ValidEnv(env) && IdOf(ind.record).Some? && IdOf(mal.record).Some?
    ensures RelationshipOf(RecordArg(ind.record), StrArg("indicates"), RecordArg(mal.record), env) == Ok(rel)
    ensures rel.drawn == env.drawn + 1 && IdOf(rel.record) == Some("relationship--" + env.uuid(env.drawn + 1))
    ensures Get(rel.record, "source_ref") == Some(Text(IdOf(ind.record).value))
    ensures Get(rel.record, "target_ref") == Some(Text(IdOf(mal.record).value))
    ensures Construct(Bundle, One("objects", RecordListArg([ind.record, mal.record, rel.record])), After(env, rel.drawn))
         == Ok(bundle)
    ensures bundle.drawn == env.drawn + 2 && IdOf(bundle.record) == Some("bundle--" + env.uuid(env.drawn + 2))
    ensures Get(bundle.record, "objects") == Some(Objects([ind.record, mal.record, rel.record]))
  {
    RelationshipFromRecords(ind.record, "indicates", mal.record, env);
    rel := RelationshipOf(RecordArg(ind.record), StrArg("indicates"), RecordArg(mal.record), env).value;
    BundleOfObjects([ind.record, mal.record, rel.record], After(env, rel.drawn));
    bundle := Construct(Bundle, One("objects", RecordListArg([ind.record, mal.record, rel.record])), After(env, rel.drawn)).value;
  }
}
