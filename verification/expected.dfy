/** The exact text `str(record)` gives for the malware of the
    serialisation test: every field supplied, keys sorted, four-space
    indentation, timestamps rendered in UTC with a final `Z`. */
module Expected {
  import opened Results
  import opened StringOrder
  import opened Calendar
  import opened Timestamps
  import opened Records
  import opened Scenarios
  import Canonical
  import Json

  /** No character that JSON escapes. */
  predicate Plain(s: string) {
    forall i :: 0 <= i < |s| ==> s[i] != '"' && s[i] != '\\'
  }

  lemma PlainAppend(a: string, b: string)
    requires Plain(a) && Plain(b)
    ensures Plain(a + b)
  {
    forall i | 0 <= i < |a + b|
      ensures (a + b)[i] != '"' && (a + b)[i] != '\\'
    {
      if i >= |a| {
        assert (a + b)[i] == b[i - |a|];
      }
    }
  }

  /** A plain string is escaped as itself. */
  lemma {:induction false} EscapePlain(s: string)
    requires Plain(s)
    ensures Json.Escape(s) == s
    decreases |s|
  {
    if s != [] {
      EscapePlain(s[1..]);
      assert s == [s[0]] + s[1..];
    }
  }

  /** A plain string is written between quotes as it is. */
  lemma QuotePlain(s: string)
    requires Plain(s)
    ensures Json.Quote(s) == "\"" + s + "\""
  {
    EscapePlain(s);
  }

  /** A malware record with every field supplied. */
  function MalwareOf(id: string, at: Moment, category: string, name: string): Record {
    Record(Malware, map[
      "type" := Text("malware"),
      "id" := Text(id),
      "created" := Time(at),
      "modified" := Time(at),
      "labels" := TextList([category]),
      "name" := Text(name)])
  }

  const MalwareKeys: seq<string> := ["created", "id", "labels", "modified", "name", "type"]

  /** Such a record conforms to the malware schema whenever its id carries
      the malware prefix and its timestamp is valid. */
  lemma MalwareOfConforms(id: string, at: Moment, category: string, name: string)
    requires IsPrefix("malware--", id) && ValidMoment(at)
    ensures Conforms(MalwareOf(id, at, category, name))
  {
    MalwareFieldsListed(id, at, category, name);
    MalwareFieldsFit(id, at, category, name);
  }

  lemma MalwareFieldsListed(id: string, at: Moment, category: string, name: string)
    ensures var specs := Schema(Malware);
      && MalwareOf(id, at, category, name).fields.Keys <= NamesOf(specs)
      && forall i :: 0 <= i < |specs| ==> specs[i].name in MalwareOf(id, at, category, name).fields
  {
    var specs := Schema(Malware);
    var f := MalwareOf(id, at, category, name).fields;
    MalwareSchema();
    assert f.Keys == {"type", "id", "created", "modified", "labels", "name"};
    assert specs[0].name in NamesOf(specs) && specs[1].name in NamesOf(specs) && specs[2].name in NamesOf(specs);
    assert specs[3].name in NamesOf(specs) && specs[4].name in NamesOf(specs) && specs[5].name in NamesOf(specs);
  }

  lemma MalwareFieldsFit(id: string, at: Moment, category: string, name: string)
    requires IsPrefix("malware--", id) && ValidMoment(at)
    ensures var specs := Schema(Malware);
      var f := MalwareOf(id, at, category, name).fields;
      forall i :: 0 <= i < |specs| && specs[i].name in f ==> Fits(Malware, specs[i].shape, f[specs[i].name])
  {
    var specs := Schema(Malware);
    var f := MalwareOf(id, at, category, name).fields;
    MalwareSchema();
    Spelled();
    assert f["type"] == Text("malware") && f["id"] == Text(id) && f["created"] == Time(at);
    assert f["modified"] == Time(at) && f["labels"] == TextList([category]) && f["name"] == Text(name);
  }

  /** Its field names, in ascending order. */
  lemma MalwareKeysSorted(id: string, at: Moment, category: string, name: string)
    ensures Sorted(MalwareOf(id, at, category, name).fields.Keys) == MalwareKeys
  {
    MalwareKeySet(id, at, category, name);
    MalwareKeysAscend();
    SortedUnique(Sorted(MalwareOf(id, at, category, name).fields.Keys), MalwareKeys);
  }

  lemma MalwareKeySet(id: string, at: Moment, category: string, name: string)
    ensures MalwareOf(id, at, category, name).fields.Keys == set i | 0 <= i < |MalwareKeys| :: MalwareKeys[i]
  {
    var xs := MalwareKeys;
    assert xs[0] == "created" && xs[1] == "id" && xs[2] == "labels";
    assert xs[3] == "modified" && xs[4] == "name" && xs[5] == "type";
  }

  lemma MalwareKeysAscend()
    ensures StrictlySorted(MalwareKeys)
  {
    var xs := MalwareKeys;
    forall i, j | 0 <= i < j < |xs|
      ensures Precedes(xs[i], xs[j])
    {
      assert xs[i][0] < xs[j][0];
    }
  }

  /** The members of its JSON object, in key order, `stamp` being the
      rendered timestamp. */
  function MembersOf(id: string, stamp: string, category: string, name: string): seq<Json.Member> {
    [ Json.Member("created", Json.JStr(stamp)),
      Json.Member("id", Json.JStr(id)),
      Json.Member("labels", Json.JArr([Json.JStr(category)])),
      Json.Member("modified", Json.JStr(stamp)),
      Json.Member("name", Json.JStr(name)),
      Json.Member("type", Json.JStr("malware")) ]
  }

  /** A one-element list of text is a one-element JSON array. */
  lemma SingleList(item: string)
    ensures Canonical.ValueJson(TextList([item])) == Ok(Json.JArr([Json.JStr(item)]))
  {
    var items := Canonical.ValueJson(TextList([item])).value.items;
    assert items == [Json.JStr(item)];
  }

  /** The `i`-th key's value has the JSON the `i`-th member holds. */
  predicate ValueMatches(id: string, at: Moment, category: string, name: string, stamp: string, i: nat)
    requires i < 6
  {
    && Canonical.TimesValid(MalwareOf(id, at, category, name).fields[MalwareKeys[i]])
    && MembersOf(id, stamp, category, name)[i].key == MalwareKeys[i]
    && Canonical.ValueJson(MalwareOf(id, at, category, name).fields[MalwareKeys[i]])
       == Ok(MembersOf(id, stamp, category, name)[i].value)
  }

  lemma TimeValue(id: string, at: Moment, category: string, name: string, stamp: string, i: nat)
    requires Canonical.TimesValid(Time(at)) && Canonical.ValueJson(Time(at)) == Ok(Json.JStr(stamp))
    requires i == 0 || i == 3
    ensures ValueMatches(id, at, category, name, stamp, i)
  {
    assert MalwareOf(id, at, category, name).fields[MalwareKeys[i]] == Time(at);
    assert MembersOf(id, stamp, category, name)[i].value == Json.JStr(stamp);
  }

  /** A timestamp that formats as `stamp` is the JSON string `stamp`. */
  lemma TimeJson(at: Moment, stamp: string)
    requires ValidMoment(at) && FormatDateTimeIntended(at) == Ok(stamp)
    ensures Canonical.TimesValid(Time(at)) && Canonical.ValueJson(Time(at)) == Ok(Json.JStr(stamp))
  {
  }

  /** The six lookups into such a record. */
  lemma MalwareFieldsAre(id: string, at: Moment, category: string, name: string)
    ensures var f := MalwareOf(id, at, category, name).fields;
      && "created" in f && f["created"] == Time(at)
      && "id" in f && f["id"] == Text(id)
      && "labels" in f && f["labels"] == TextList([category])
      && "modified" in f && f["modified"] == Time(at)
      && "name" in f && f["name"] == Text(name)
      && "type" in f && f["type"] == Text("malware")
  {
  }

  lemma TextValue(id: string, at: Moment, category: string, name: string, stamp: string, i: nat)
    requires i == 1 || i == 4 || i == 5
    ensures ValueMatches(id, at, category, name, stamp, i)
  {
    var f := MalwareOf(id, at, category, name).fields;
    MalwareFieldsAre(id, at, category, name);
    if i == 1 {
      assert f[MalwareKeys[i]] == Text(id);
    } else if i == 4 {
      assert f[MalwareKeys[i]] == Text(name);
    } else {
      assert f[MalwareKeys[i]] == Text("malware");
    }
  }

  lemma ListValue(id: string, at: Moment, category: string, name: string, stamp: string)
    ensures ValueMatches(id, at, category, name, stamp, 2)
  {
    SingleList(category);
    MalwareFieldsAre(id, at, category, name);
    assert MalwareOf(id, at, category, name).fields[MalwareKeys[2]] == TextList([category]);
  }

  /** Every field's value has the JSON the matching member holds. */
  lemma MalwareValues(id: string, at: Moment, category: string, name: string, stamp: string)
    requires ValidMoment(at) && FormatDateTimeIntended(at) == Ok(stamp)
    ensures Canonical.RecordTimesValid(MalwareOf(id, at, category, name))
    ensures forall i :: 0 <= i < |MalwareKeys| ==>
      && MalwareKeys[i] in MalwareOf(id, at, category, name).fields
      && MembersOf(id, stamp, category, name)[i].key == MalwareKeys[i]
      && Canonical.ValueJson(MalwareOf(id, at, category, name).fields[MalwareKeys[i]])
         == Ok(MembersOf(id, stamp, category, name)[i].value)
  {
    var r := MalwareOf(id, at, category, name);
    TimeJson(at, stamp);
    forall i | 0 <= i < |MalwareKeys|
      ensures MalwareKeys[i] in r.fields
      ensures MembersOf(id, stamp, category, name)[i].key == MalwareKeys[i]
      ensures Canonical.TimesValid(r.fields[MalwareKeys[i]])
      ensures Canonical.ValueJson(r.fields[MalwareKeys[i]]) == Ok(MembersOf(id, stamp, category, name)[i].value)
    {
      if i == 0 || i == 3 {
        TimeValue(id, at, category, name, stamp, i);
      } else if i == 2 {
        ListValue(id, at, category, name, stamp);
      } else {
        TextValue(id, at, category, name, stamp, i);
      }
    }
    MalwareKeysSorted(id, at, category, name);
    assert Canonical.RecordTimesValid(r) by {
      forall key | key in r.fields
        ensures Canonical.TimesValid(r.fields[key])
      {
        assert key in Sorted(r.fields.Keys);
      }
    }
  }

  /** The JSON object of such a record lists its fields in key order. */
  lemma MalwareJson(id: string, at: Moment, category: string, name: string, stamp: string)
    requires ValidMoment(at) && FormatDateTimeIntended(at) == Ok(stamp)
    ensures Canonical.RecordTimesValid(MalwareOf(id, at, category, name))
    ensures Canonical.RecordJson(MalwareOf(id, at, category, name)) == Ok(Json.JObj(MembersOf(id, stamp, category, name)))
  {
    MalwareKeysSorted(id, at, category, name);
    MalwareValues(id, at, category, name, stamp);
    Canonical.MembersJsonOf(MalwareOf(id, at, category, name), MalwareKeys, MembersOf(id, stamp, category, name));
  }

  /** A line `"key": "value"` at nesting 1. */
  function Field(key: string, value: string): string {
    "    " + ("\"" + key + "\"") + ": " + ("\"" + value + "\"")
  }

  /** A member whose value is a one-element list, at nesting 1. */
  function ListField(key: string, item: string): string {
    "    " + ("\"" + key + "\"") + ": " + ("[\n" + ("        " + ("\"" + item + "\"")) + "\n" + "    " + "]")
  }

  /** The text those members print as, one member per line. */
  function TextOf(id: string, stamp: string, category: string, name: string): string {
    "{\n"
    + (Field("created", stamp) + (",\n"
    + (Field("id", id) + (",\n"
    + (ListField("labels", category) + (",\n"
    + (Field("modified", stamp) + (",\n"
    + (Field("name", name) + (",\n"
    + (Field("type", "malware") + "\n}")))))))))))
  }

  /** A text member printed at nesting 1, followed by `rest`. */
  lemma FieldText(ms: seq<Json.Member>, key: string, value: string, rest: string)
    requires ms != [] && ms[0] == Json.Member(key, Json.JStr(value)) && Plain(key) && Plain(value)
    ensures |ms| == 1 ==> Json.PrintMembers(ms, 1) + rest == Field(key, value) + rest
    ensures |ms| > 1 ==>
      Json.PrintMembers(ms, 1) + rest == Field(key, value) + (",\n" + (Json.PrintMembers(ms[1..], 1) + rest))
  {
    Json.MembersText(ms, 1, rest);
    QuotePlain(key);
    QuotePlain(value);
    assert Json.Indent(1) == "    ";
    var qk, qv := "\"" + key + "\"", "\"" + value + "\"";
    if |ms| == 1 {
      Json.Regroup("    ", qk, ": ", qv, rest);
    } else {
      Json.Regroup("    ", qk, ": ", qv, ",\n" + (Json.PrintMembers(ms[1..], 1) + rest));
    }
  }

  /** A one-element list of text at nesting 1. */
  lemma ListText(item: string)
    requires Plain(item)
    ensures Json.Print(Json.JArr([Json.JStr(item)]), 1)
         == "[\n" + ("        " + ("\"" + item + "\"")) + "\n" + "    " + "]"
  {
    QuotePlain(item);
    assert Json.Indent(1) == "    " && Json.Indent(2) == "        ";
    Json.ItemsText([Json.JStr(item)], 2, "");
    assert Json.PrintItems([Json.JStr(item)], 2) == "        " + ("\"" + item + "\"");
  }

  /** A member holding a one-element list of text, followed by more. */
  lemma ListFieldText(ms: seq<Json.Member>, key: string, item: string, rest: string)
    requires |ms| > 1 && ms[0] == Json.Member(key, Json.JArr([Json.JStr(item)])) && Plain(key) && Plain(item)
    ensures Json.PrintMembers(ms, 1) + rest
         == ListField(key, item) + (",\n" + (Json.PrintMembers(ms[1..], 1) + rest))
  {
    Json.MembersText(ms, 1, rest);
    QuotePlain(key);
    assert Json.Indent(1) == "    ";
    var list := Json.Print(Json.JArr([Json.JStr(item)]), 1);
    ListText(item);
    var qk := "\"" + key + "\"";
    var tail := ",\n" + (Json.PrintMembers(ms[1..], 1) + rest);
    Json.Regroup("    ", qk, ": ", list, tail);
  }

  /** The key names are plain. */
  lemma PlainKeys()
    ensures Plain("created") && Plain("id") && Plain("labels") && Plain("modified")
    ensures Plain("name") && Plain("type") && Plain("malware")
  {
  }

  /** The printed members from `name` on, then the closing brace. */
  lemma FromName(ms: seq<Json.Member>, name: string)
    requires Plain(name)
    requires |ms| == 2 && ms[0] == Json.Member("name", Json.JStr(name))
    requires ms[1] == Json.Member("type", Json.JStr("malware"))
    ensures Json.PrintMembers(ms, 1) + "\n}"
         == Field("name", name) + (",\n" + (Field("type", "malware") + "\n}"))
  {
    PlainKeys();
    FieldText(ms[1..], "type", "malware", "\n}");
    FieldText(ms, "name", name, "\n}");
  }

  /** The printed members from `modified` on. */
  lemma FromModified(ms: seq<Json.Member>, stamp: string, name: string)
    requires Plain(stamp) && Plain(name)
    requires |ms| == 3 && ms[0] == Json.Member("modified", Json.JStr(stamp))
    requires ms[1] == Json.Member("name", Json.JStr(name))
    requires ms[2] == Json.Member("type", Json.JStr("malware"))
    ensures Json.PrintMembers(ms, 1) + "\n}"
         == Field("modified", stamp) + (",\n" + (Field("name", name) + (",\n" + (Field("type", "malware") + "\n}"))))
  {
    PlainKeys();
    FromName(ms[1..], name);
    FieldText(ms, "modified", stamp, "\n}");
  }

  /** The printed members from `labels` on. */
  lemma FromLabels(ms: seq<Json.Member>, stamp: string, category: string, name: string)
    requires Plain(stamp) && Plain(category) && Plain(name)
    requires |ms| == 4 && ms[0] == Json.Member("labels", Json.JArr([Json.JStr(category)]))
    requires ms[1] == Json.Member("modified", Json.JStr(stamp))
    requires ms[2] == Json.Member("name", Json.JStr(name))
    requires ms[3] == Json.Member("type", Json.JStr("malware"))
    ensures Json.PrintMembers(ms, 1) + "\n}"
         == ListField("labels", category) + (",\n" + (Field("modified", stamp) + (",\n"
            + (Field("name", name) + (",\n" + (Field("type", "malware") + "\n}"))))))
  {
    PlainKeys();
    FromModified(ms[1..], stamp, name);
    ListFieldText(ms, "labels", category, "\n}");
  }

  /** The printed members from `id` on. */
  lemma FromId(ms: seq<Json.Member>, id: string, stamp: string, category: string, name: string)
    requires Plain(id) && Plain(stamp) && Plain(category) && Plain(name)
    requires |ms| == 5 && ms[0] == Json.Member("id", Json.JStr(id))
    requires ms[1] == Json.Member("labels", Json.JArr([Json.JStr(category)]))
    requires ms[2] == Json.Member("modified", Json.JStr(stamp))
    requires ms[3] == Json.Member("name", Json.JStr(name))
    requires ms[4] == Json.Member("type", Json.JStr("malware"))
    ensures Json.PrintMembers(ms, 1) + "\n}"
         == Field("id", id) + (",\n" + (ListField("labels", category) + (",\n" + (Field("modified", stamp) + (",\n"
            + (Field("name", name) + (",\n" + (Field("type", "malware") + "\n}"))))))))
  {
    PlainKeys();
    FromLabels(ms[1..], stamp, category, name);
    FieldText(ms, "id", id, "\n}");
  }

  /** All six members, braces included. */
  lemma FromCreated(ms: seq<Json.Member>, id: string, stamp: string, category: string, name: string)
    requires Plain(id) && Plain(stamp) && Plain(category) && Plain(name)
    requires |ms| == 6 && ms[0] == Json.Member("created", Json.JStr(stamp))
    requires ms[1] == Json.Member("id", Json.JStr(id))
    requires ms[2] == Json.Member("labels", Json.JArr([Json.JStr(category)]))
    requires ms[3] == Json.Member("modified", Json.JStr(stamp))
    requires ms[4] == Json.Member("name", Json.JStr(name))
    requires ms[5] == Json.Member("type", Json.JStr("malware"))
    ensures Json.Serialize(Json.JObj(ms)) == TextOf(id, stamp, category, name)
  {
    PlainKeys();
    TopObject(ms);
    FromId(ms[1..], id, stamp, category, name);
    FieldText(ms, "created", stamp, "\n}");
  }

  /** A non-empty object at the top level: its members between braces. */
  lemma TopObject(ms: seq<Json.Member>)
    requires ms != []
    ensures Json.Serialize(Json.JObj(ms)) == "{\n" + (Json.PrintMembers(ms, 1) + "\n}")
  {
    Json.ObjectText(ms, 0, "");
    assert Json.Indent(0) == "";
    assert "\n" + Json.Indent(0) + "}" + "" == "\n}";
  }

  /** The members of the record print as `TextOf` says. */
  lemma PrintedText(id: string, stamp: string, category: string, name: string)
    requires Plain(id) && Plain(stamp) && Plain(category) && Plain(name)
    ensures Json.Serialize(Json.JObj(MembersOf(id, stamp, category, name))) == TextOf(id, stamp, category, name)
  {
    FromCreated(MembersOf(id, stamp, category, name), id, stamp, category, name);
  }

  /** The keyword arguments naming every field of such a record. */
  function ArgsFor(id: string, at: Moment, category: string, name: string): map<string, Arg> {
    map[
      "type" := StrArg("malware"),
      "id" := StrArg(id),
      "created" := MomentArg(at),
      "modified" := MomentArg(at),
      "labels" := StrListArg([category]),
      "name" := StrArg(name)]
  }

  /** They are the arguments that reconstruct the record. */
  lemma ArgsForRecord(id: string, at: Moment, category: string, name: string)
    ensures ArgsOf(MalwareOf(id, at, category, name)) == ArgsFor(id, at, category, name)
  {
    var a, b := ArgsOf(MalwareOf(id, at, category, name)), ArgsFor(id, at, category, name);
    assert a.Keys == b.Keys;
    forall key | key in b
      ensures a[key] == b[key]
    {
    }
  }

  /** Supplying every field builds exactly the record those arguments
      describe, and draws no id. */
  lemma MalwareBuilt(id: string, at: Moment, category: string, name: string, env: Env)
    requires IsPrefix("malware--", id) && ValidMoment(at) && ValidEnv(env)
    ensures ValidArgs(ArgsFor(id, at, category, name))
    ensures Construct(Malware, ArgsFor(id, at, category, name), env)
         == Ok(Built(MalwareOf(id, at, category, name), env.drawn))
  {
    MalwareOfConforms(id, at, category, name);
    Reconstruct(MalwareOf(id, at, category, name), env);
    ArgsForRecord(id, at, category, name);
  }

  /** A malware built from every field serialises, whatever its values
      (plain text, a timestamp in range), to `TextOf` them. */
  lemma MalwareSerialized(id: string, at: Moment, category: string, name: string, stamp: string, env: Env)
    requires IsPrefix("malware--", id) && ValidMoment(at) && ValidEnv(env)
    requires FormatDateTimeIntended(at) == Ok(stamp)
    requires Plain(id) && Plain(stamp) && Plain(category) && Plain(name)
    ensures ValidArgs(ArgsFor(id, at, category, name)) && Construct(Malware, ArgsFor(id, at, category, name), env).Ok?
    ensures var r := Construct(Malware, ArgsFor(id, at, category, name), env).value.record;
      Canonical.RecordTimesValid(r) && Canonical.Serialize(r) == Ok(TextOf(id, stamp, category, name))
  {
    MalwareBuilt(id, at, category, name, env);
    MalwareJson(id, at, category, name, stamp);
    PrintedText(id, stamp, category, name);
  }

  /** 2016-05-12 08:17:27 UTC, the instant the test supplies. */
  const Then := DateTime(Date(2016, 5, 12), 8, 17, 27, 0)

  /** The aware instant renders as its UTC text. */
  lemma ThenText()
    ensures ValidMoment(Aware(Zoned(Then, 0)))
    ensures FormatDateTimeIntended(Aware(Zoned(Then, 0))) == Ok("2016-05-12T08:17:27Z")
  {
    ToUtcOfUtc(Then);
    assert WholeText(Then) == "2016-05-12T08:17:27Z";
    FormatsAs(Aware(Zoned(Then, 0)), Then);
  }

  lemma PlainPieces()
    ensures Plain("malware--") && Plain("fedcba98") && Plain("-7654") && Plain("-3210") && Plain("-fedc")
    ensures Plain("-ba9876543210")
    ensures Plain("2016-05-12T08:17:27Z") && Plain("ransomware") && Plain("Cryptolocker")
  {
    assert Plain("malware--");
    assert Plain("-ba9876543210");
    assert Plain("2016-05-12T08:17:27Z");
  }

  /** The test's values are plain, and its id has the malware prefix. */
  lemma TestValuesPlain()
    ensures IsPrefix("malware--", MalwareId)
    ensures Plain(MalwareId) && Plain("2016-05-12T08:17:27Z") && Plain("ransomware") && Plain("Cryptolocker")
  {
    PlainPieces();
    PlainAppend("fedcba98", "-7654");
    PlainAppend("fedcba98" + "-7654", "-3210");
    PlainAppend("fedcba98" + "-7654" + "-3210", "-fedc");
    var uuid := "fedcba98" + "-7654" + "-3210" + "-fedc" + "-ba9876543210";
    PlainAppend("fedcba98" + "-7654" + "-3210" + "-fedc", "-ba9876543210");
    PlainAppend("malware--", uuid);
    PrefixOfAppend("malware--", uuid);
  }

  lemma PrefixOfAppend(p: string, t: string)
    ensures IsPrefix(p, p + t)
  {
    assert (p + t)[..|p|] == p;
  }

  /** The test's malware: created and modified at `Then`, labelled
      ransomware, named Cryptolocker, with the fixed id. It serialises to
      the text the test expects, line for line. */
  lemma ExpectedMalware(env: Env)
    requires ValidEnv(env)
    ensures var args := ArgsFor(MalwareId, Aware(Zoned(Then, 0)), "ransomware", "Cryptolocker");
      && ValidArgs(args) && Construct(Malware, args, env).Ok?
      && var r := Construct(Malware, args, env).value.record;
      && Canonical.RecordTimesValid(r)
      && Canonical.Serialize(r) == Ok(TextOf(MalwareId, "2016-05-12T08:17:27Z", "ransomware", "Cryptolocker"))
  {
    ThenText();
    TestValuesPlain();
    MalwareSerialized(MalwareId, Aware(Zoned(Then, 0)), "ransomware", "Cryptolocker", "2016-05-12T08:17:27Z", env);
  }
}
