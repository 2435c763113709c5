/** Canonical serialisation of a record, as `str(record)` produces it:
    `json.dumps` with `indent=4` and `sort_keys=True`, timestamps through
    `format_datetime`, nested records serialised the same way. */
module Canonical {
  import opened Results
  import opened Errors
  import opened StringOrder
  import opened Calendar
  import opened Timestamps
  import opened Records
  import Json

  /** Every timestamp held anywhere in the value, nested records included,
      is a valid `datetime`. */
  predicate TimesValid(v: Value)
    decreases v, 0
  {
    match v
    case Time(m) => ValidMoment(m)
    case Objects(rs) => forall i :: 0 <= i < |rs| ==> RecordTimesValid(rs[i])
    case _ => true
  }

  predicate RecordTimesValid(r: Record)
    decreases r, 1
  {
    forall name :: name in r.fields ==> TimesValid(r.fields[name])
  }

  /** The JSON of one field value: strings as strings, lists in order,
      timestamps rendered, nested records as objects. */
  function ValueJson(v: Value): (res: Result<Json.Json, Error>)
    requires TimesValid(v)
    ensures res.Err? ==> res.error == OutOfRange
    ensures v.Text? ==> res == Ok(Json.JStr(v.s))
    ensures v.TextList? ==>
      (&& res.Ok? && res.value.JArr? && |res.value.items| == |v.xs|
       && forall i :: 0 <= i < |v.xs| ==> res.value.items[i] == Json.JStr(v.xs[i]))
    ensures v.Time? ==> (res.Ok? <==> FormatDateTimeIntended(v.moment).Ok?)
    ensures v.Time? && res.Ok? ==> res.value == Json.JStr(FormatDateTimeIntended(v.moment).value)
    ensures v.Objects? && res.Ok? ==>
      (&& res.value.JArr? && |res.value.items| == |v.records|
       && forall i :: 0 <= i < |v.records| ==> RecordJson(v.records[i]) == Ok(res.value.items[i]))
    decreases v, 0
  {
    match v
    case Text(s) => Ok(Json.JStr(s))
    case TextList(xs) => Ok(Json.JArr(seq(|xs|, i requires 0 <= i < |xs| => Json.JStr(xs[i]))))
    case Time(m) =>
      var s :- FormatDateTimeIntended(m);
      Ok(Json.JStr(s))
    case Objects(rs) =>
      var items :- ItemsJson(rs);
      Ok(Json.JArr(items))
  }

  function ItemsJson(rs: seq<Record>): (res: Result<seq<Json.Json>, Error>)
    requires forall i :: 0 <= i < |rs| ==> RecordTimesValid(rs[i])
    ensures res.Err? ==> res.error == OutOfRange
    ensures res.Ok? ==> |res.value| == |rs| && forall i :: 0 <= i < |rs| ==> RecordJson(rs[i]) == Ok(res.value[i])
    decreases rs
  {
    if rs == [] then Ok([])
    else
      var head :- RecordJson(rs[0]);
      var tail :- ItemsJson(rs[1..]);
      assert forall i :: 1 <= i < |rs| ==> rs[1..][i - 1] == rs[i];
      Ok([head] + tail)
  }

  /** The members for `keys`, in that order. */
  function MembersJson(r: Record, keys: seq<string>): (res: Result<seq<Json.Member>, Error>)
    requires RecordTimesValid(r)
    requires forall i :: 0 <= i < |keys| ==> keys[i] in r.fields
    ensures res.Err? ==> res.error == OutOfRange
    ensures res.Ok? ==> |res.value| == |keys|
    ensures res.Ok? ==> forall i :: 0 <= i < |keys| ==>
      res.value[i].key == keys[i] && ValueJson(r.fields[keys[i]]) == Ok(res.value[i].value)
    decreases r, 0, |keys|
  {
    if keys == [] then Ok([])
    else
      var head :- ValueJson(r.fields[keys[0]]);
      var tail :- MembersJson(r, keys[1..]);
      Ok([Json.Member(keys[0], head)] + tail)
  }

  /** Conversely, members that pair each key, in order, with the JSON of
      its value are exactly what `MembersJson` builds. */
  lemma {:induction false} MembersJsonOf(r: Record, keys: seq<string>, ms: seq<Json.Member>)
    requires RecordTimesValid(r)
    requires forall i :: 0 <= i < |keys| ==> keys[i] in r.fields
    requires |ms| == |keys|
    requires forall i :: 0 <= i < |keys| ==>
      ms[i].key == keys[i] && ValueJson(r.fields[keys[i]]) == Ok(ms[i].value)
    ensures MembersJson(r, keys) == Ok(ms)
    decreases |keys|
  {
    if keys != [] {
      MembersJsonOf(r, keys[1..], ms[1..]);
      assert ms == [Json.Member(keys[0], ms[0].value)] + ms[1..];
    }
  }

  /** The JSON object of a record: one member per field, keys in sorted
      order. */
  function RecordJson(r: Record): (res: Result<Json.Json, Error>)
    requires RecordTimesValid(r)
    ensures res.Err? ==> res.error == OutOfRange
    ensures res.Ok? ==> res.value.JObj? && KeysOf(res.value.members) == Sorted(r.fields.Keys)
    ensures res.Ok? ==> forall i :: 0 <= i < |res.value.members| ==>
      ValueJson(r.fields[res.value.members[i].key]) == Ok(res.value.members[i].value)
    decreases r, 1
  {
    var keys := Sorted(r.fields.Keys);
    var ms :- MembersJson(r, keys);
    assert KeysOf(ms) == keys;
    Ok(Json.JObj(ms))
  }

  function KeysOf(ms: seq<Json.Member>): (ks: seq<string>)
    ensures |ks| == |ms| && forall i :: 0 <= i < |ms| ==> ks[i] == ms[i].key
  {
    seq(|ms|, i requires 0 <= i < |ms| => ms[i].key)
  }

  /** Keys ascend strictly in every object, at every depth. */
  predicate KeysSorted(j: Json.Json) {
    match j
    case JStr(_) => true
    case JArr(xs) => forall i :: 0 <= i < |xs| ==> KeysSorted(xs[i])
    case JObj(ms) => StrictlySorted(KeysOf(ms)) && forall i :: 0 <= i < |ms| ==> KeysSorted(ms[i].value)
  }

  /** The serialised text of a record. */
  function Serialize(r: Record): (res: Result<string, Error>)
    requires RecordTimesValid(r)
    ensures res.Err? ==> res.error == OutOfRange
    ensures res.Ok? <==> RecordJson(r).Ok?
  {
    var j :- RecordJson(r);
    Ok(Json.Serialize(j))
  }

  /** Keys are sorted in the object of a record and in every object nested
      inside it. */
  lemma {:induction false} RecordKeysSorted(r: Record)
    requires RecordTimesValid(r) && RecordJson(r).Ok?
    ensures KeysSorted(RecordJson(r).value)
    decreases r, 1
  {
    var ms := RecordJson(r).value.members;
    forall i | 0 <= i < |ms|
      ensures KeysSorted(ms[i].value)
    {
      ValueKeysSorted(r.fields[ms[i].key]);
    }
  }

  lemma {:induction false} ValueKeysSorted(v: Value)
    requires TimesValid(v) && ValueJson(v).Ok?
    ensures KeysSorted(ValueJson(v).value)
    decreases v, 0
  {
    match v
    case Objects(rs) =>
      var items := ValueJson(v).value.items;
      forall i | 0 <= i < |items|
        ensures KeysSorted(items[i])
      {
        RecordKeysSorted(rs[i]);
      }
    case _ =>
  }

  /** Each field appears under its own name, exactly once. */
  lemma MemberFor(r: Record, name: string)
    requires RecordTimesValid(r) && RecordJson(r).Ok? && name in r.fields
    ensures exists i :: 0 <= i < |RecordJson(r).value.members| && RecordJson(r).value.members[i].key == name
    ensures forall i, j :: 0 <= i < j < |RecordJson(r).value.members| ==>
      RecordJson(r).value.members[i].key != RecordJson(r).value.members[j].key
  {
    var ms := RecordJson(r).value.members;
    var keys := Sorted(r.fields.Keys);
    assert name in keys;
    var i :| 0 <= i < |keys| && keys[i] == name;
    assert KeysOf(ms)[i] == name;
    forall i, j | 0 <= i < j < |ms|
      ensures ms[i].key != ms[j].key
    {
      assert Precedes(keys[i], keys[j]);
      PrecedesIrreflexive(keys[i]);
    }
  }

  /** A text field serialises as that text under its name. */
  lemma TextFieldVerbatim(r: Record, name: string)
    requires RecordTimesValid(r) && RecordJson(r).Ok? && name in r.fields && r.fields[name].Text?
    ensures Json.Member(name, Json.JStr(r.fields[name].s)) in RecordJson(r).value.members
  {
    MemberFor(r, name);
    var ms := RecordJson(r).value.members;
    var i :| 0 <= i < |ms| && ms[i].key == name;
    assert ms[i] == Json.Member(name, Json.JStr(r.fields[name].s));
  }

  /** A timestamp field serialises, under its name, as text that reads
      back as its UTC value. */
  lemma TimeFieldReadsBack(r: Record, name: string)
    requires name in r.fields && r.fields[name].Time? && ValidMoment(r.fields[name].moment)
    requires RecordTimesValid(r) && RecordJson(r).Ok?
    ensures FormatDateTimeIntended(r.fields[name].moment).Ok?
    ensures var s := FormatDateTimeIntended(r.fields[name].moment).value;
      && Json.Member(name, Json.JStr(s)) in RecordJson(r).value.members
      && ParseTimestamp(s) == Some(UtcOf(r.fields[name].moment).value)
  {
    MemberFor(r, name);
    var ms := RecordJson(r).value.members;
    var i :| 0 <= i < |ms| && ms[i].key == name;
    assert ValueJson(r.fields[name]) == Ok(ms[i].value);
  }

  /** The serialised text reads back as the record's JSON object. */
  lemma SerializeReadsBack(r: Record)
    requires RecordTimesValid(r) && Serialize(r).Ok?
    ensures Json.Deserialize(Serialize(r).value) == Some(RecordJson(r).value)
  {
    Json.SerializeRoundTrip(RecordJson(r).value);
  }
}
