# stix2 records and timestamps, modelled in Dafny

This project models two parts of the `stix2` Python library for STIX 2.0
threat-intelligence objects.

**Timestamps (`stix2/utils.py`).**
- `format_datetime` shifts an aware `datetime` to UTC, writes it as
  `YYYY-MM-DDTHH:MM:SS`, adds `.` and the microseconds without trailing
  zeros when they are non-zero, and ends with `Z`.
- `parse_into_datetime` turns a date into midnight UTC and returns a
  `datetime` unchanged. A parsed string becomes UTC: with its offset
  applied if it named one, otherwise taken to be UTC already.
- The `NOW` sentinel gives every current-time field of one construction
  the same instant.
- `get_dict` passes a dictionary through unchanged.

**Records (the construction protocol the library's tests exercise).**
- `Indicator`, `Malware`, `Relationship` and `Bundle` are built from
  keyword arguments against a schema per kind. The steps, in order:
  1. A supplied `type`, and a bundle's `spec_version`, must hold the fixed value.
  2. A supplied `id` must start with `<type>--`.
  3. The first absent required field, in declared order, is the one reported.
  4. Supplied values are coerced. A record given for `source_ref` or
     `target_ref` stands for its id. Timestamps go through
     `parse_into_datetime`.
  5. Absent fields take their defaults: the shared "now", a fresh id from
     the id generator, or the fixed text.
  6. Unknown names are rejected, all of them together.
- A built record is frozen: attribute access and key access read the same
  mapping (`Records.Get`), and every assignment fails.
- `str(record)` is JSON with keys sorted at every depth and four-space
  indentation, with timestamps rendered by `format_datetime`.

Layout:

| module | file | content |
|---|---|---|
| `Results` | results.dfy | `Option` and `Result` |
| `StringOrder` | order.dfy | code-point order on strings, prefixes, the sorted listing of a set |
| `Digits` | digits.dfy | zero padding, digit values, trailing-zero trimming |
| `Calendar` | calendar.dfy | proleptic Gregorian dates, ordinals, next and previous day |
| `Errors` | errors.dfy | one constructor per exception, with its message text |
| `Timestamps` | timestamps.dfy | UTC shift, rendering, its exact reader, `parse_into_datetime` |
| `Ingest` | ingest.dfy | `get_dict` |
| `Json` | json.dfy | indented JSON printing and an exact reader of it |
| `Records` | records.dfy | schemas, construction, access, immutability |
| `Canonical` | canonical.dfy | record to JSON with sorted keys |
| `Scenarios` | scenarios.dfy | the formatting table, the error texts, the minimal arguments |
| `Fixtures` | fixtures.dfy | constructions chained the way the test fixtures chain them |
| `Expected` | expected.dfy | the exact serialised text of the fully supplied malware |

The environment of a construction is `Records.Env`. It holds:
- the captured "now";
- the id generator, where `uuid(i)` is the `i`-th id it hands out, and how
  many ids it has handed out so far;
- the text date parser.

## Model

| member | source | states |
|---|---|---|
| Timestamps.ToUtc | stix2/utils.py:26-27 | the UTC reading of an aware value is the same instant on the minute time line, with seconds and microseconds kept; it exists exactly when that instant lies in years 1 to 9999, and otherwise the error is `OutOfRange` |
| Timestamps.ToUtcUnique | stix2/utils.py:27 | any valid reading of the same instant with the same seconds and microseconds is the one `ToUtc` gives, so the UTC reading is unique |
| Timestamps.FormatDateTime | stix2/utils.py:19-35 | as written: a naive value fails with the unbound `zoned`; an aware value formats exactly when its UTC shift is in range, and the text reads back as that UTC reading |
| Timestamps.FormatDateTimeIntended | stix2/utils.py:26-35 | as intended: a naive value is formatted as if its offset were zero and always succeeds; an aware value formats as written; on success the text reads back as the UTC reading |
| Timestamps.FormatShape | stix2/utils.py:31-35 | the output is a 19-character date and time, a `T` between them, an optional fraction and a final `Z`; the fraction is present exactly when the UTC microsecond is non-zero, and right-padded to six digits it gives the zero-padded microsecond |
| Timestamps.FractionRoundTrip | stix2/utils.py:32-34 | the fraction of a microsecond value is empty or a `.` with one to six digits not ending in `0`, and reading it back gives the microsecond |
| Timestamps.FractionReadBack | stix2/utils.py:32-34 | every well-formed fraction is the fraction of the microsecond it denotes, so fractions and microseconds correspond one to one |
| Timestamps.RenderParse | stix2/utils.py:31-35 | the rendering of every valid UTC reading has the canonical shape, and the reader gives that reading back |
| Timestamps.ParseRender | stix2/utils.py:31-35 | every string the reader accepts is the rendering of what it reads, so renderings and valid UTC readings correspond one to one |
| Timestamps.DateRoundTrip | stix2/utils.py:31 | `%Y-%m-%d` of a date read back digit group by digit group gives the date |
| Timestamps.ClockRoundTrip | stix2/utils.py:31 | `%H:%M:%S` of a time of day read back gives the hour, minute and second |
| Timestamps.ParseIntoDatetime | stix2/utils.py:38-57 | a date becomes midnight of that date at offset zero; a `datetime` is returned unchanged; parsed text without an offset keeps its fields at offset zero; parsed text with an offset is moved to the same instant in UTC, or fails when that leaves the calendar; rejected text gives the parser's error; anything else gives the "must be a datetime object…" error |
| Timestamps.DateBecomesMidnightUtc | stix2/utils.py:42-44 | a date parsed and then formatted is that date followed by `T00:00:00Z` |
| Ingest.GetDict | stix2/utils.py:60-73 | a dictionary comes back as the same object; text and streams go to the decoder; anything else fails for want of `read` |
| Ingest.GetDictIdempotent | stix2/utils.py:65-66 | an object that `get_dict` produced passes through it again unchanged |
| Ingest.GetDictOfSerialized | stix2/utils.py:67-71 | serialised JSON, given as text or as a stream, comes back as the value serialised, for any decoder that agrees with the exact reader |
| Records.SharedNow | stix2/utils.py:9-12 | every current-time field left to its default holds the one instant captured for that construction |
| Records.Construct | stix2/test/test_stix2.py:116-131 | a successful construction conforms to its kind's schema, keeps every supplied name, and draws one id exactly when no `id` was supplied |
| Records.TypeCheckedFirst | stix2/test/test_stix2.py:151-155 | for every kind, a supplied `type` other than the tag is the error reported. The test shows this with every required field missing; that it also wins over an unknown name or a badly shaped value follows from the model's check order (see `Records.Construct` under Left out) |
| Records.IdCheckedSecond | stix2/test/test_stix2.py:158-162 | with `type` absent or correct, a supplied `id` without the `<tag>--` prefix is the error reported, before any missing field |
| Records.MissingIsFirst | stix2/test/test_stix2.py:165-175 | the construction reports field `name` missing if and only if every header field is acceptable and `name` is the first absent required field in declared order |
| Records.UnexpectedAllListed | stix2/test/test_stix2.py:185-188 | once the earlier checks pass, construction succeeds if and only if every supplied name is known, and otherwise reports exactly the set of unknown names |
| Records.FreshIdentifier | stix2/test/test_stix2.py:133-135 | without a supplied `id`, the id is the tag, `--` and the next generated id, and exactly one id is consumed |
| Records.SuppliedKept | stix2/test/test_stix2.py:136-139 | a supplied field holds its argument after coercion |
| Records.Reconstruct | stix2/test/test_stix2.py:116-131 | supplying every field of a conforming record rebuilds exactly that record and draws no id |
| Records.SetField | stix2/test/test_stix2.py:178-182 | every assignment to a record fails with "Cannot modify properties after creation." |
| Records.RelationshipFromRecords | stix2/test/test_stix2.py:368-387 | the positional form with records at both ends succeeds, stores their ids as `source_ref` and `target_ref`, keeps the relationship type, and takes the next generated id |
| Records.BundleFixedFields | stix2/test/test_stix2.py:429-434 | every bundle holds `type` "bundle" and `spec_version` "2.0", and keeps a supplied object list as given, order included |
| Records.BundleRejectsSpecVersion | stix2/test/test_stix2.py:451-455 | with `type` and `id` acceptable or absent, any `spec_version` other than "2.0" is rejected with the fixed-value error |
| Records.EmptyBundle | stix2/test/test_stix2.py:429-434 | a bundle with no arguments is built, with id "bundle--" and the next generated id |
| Canonical.ValueJson | stix2/test/test_stix2.py:390-426 | text is a JSON string, a list keeps its items in order, a timestamp is its `format_datetime` text, and a nested record is its own JSON object |
| Canonical.RecordJson | stix2/test/test_stix2.py:103-114 | a record is an object whose keys are its field names in ascending order, each holding the JSON of that field's value |
| Canonical.RecordKeysSorted | stix2/test/test_stix2.py:390-426 | keys ascend strictly in the record's object and in every object nested inside it |
| Canonical.MemberFor | stix2/test/test_stix2.py:103-114 | each field appears in the object under its own name, and no name appears twice |
| Canonical.TimeFieldReadsBack | stix2/test/test_stix2.py:103-114 | a timestamp field is written under its name as text that reads back as the field's UTC reading |
| Canonical.SerializeReadsBack | stix2/test/test_stix2.py:390-426 | the serialised text of a record reads back as the record's JSON object, so serialisation loses nothing |
| Json.SerializeRoundTrip | stix2/test/test_stix2.py:390-426 | the exact reader recovers every JSON value from its four-space indented text |
| Scenarios.FormatUtcMidnight | stix2/test/test_stix2.py:55 | midnight UTC on 2017-01-01 formats as `2017-01-01T00:00:00Z` |
| Scenarios.NaiveNewYear | stix2/utils.py:26-30 | the naive midnight of 2017-01-01 fails as written with the unassigned `zoned`, and as intended formats as `2017-01-01T00:00:00Z` |
| Scenarios.FormatAmsterdamNewYear | stix2/test/test_stix2.py:56 | midnight at UTC+01:00 on 2017-01-01 formats as `2016-12-31T23:00:00Z` |
| Scenarios.FormatEasternWinter | stix2/test/test_stix2.py:57 | 12:34:56 at UTC-05:00 on 2017-01-01 formats as `2017-01-01T17:34:56Z` |
| Scenarios.FormatEasternSummer | stix2/test/test_stix2.py:58 | midnight at UTC-04:00 on 2017-07-01 formats as `2017-07-01T04:00:00Z` |
| Scenarios.WrongTypeRejected | stix2/test/test_stix2.py:151-155 | `type='xxx'` is rejected for indicator, malware and relationship, and `type='not-a-bundle'` for a bundle, each with its own fixed-value error |
| Scenarios.WrongIdRejected | stix2/test/test_stix2.py:158-162 | `id='my-prefix--'` is rejected for every kind with that kind's prefix error |
| Scenarios.WrongSpecVersionRejected | stix2/test/test_stix2.py:451-455 | a bundle with `spec_version='1.2'` is rejected with the `spec_version` error |
| Scenarios.MissingIndicatorFields | stix2/test/test_stix2.py:165-175 | an empty indicator reports `labels` missing, and one given only `labels` reports `pattern` |
| Scenarios.MissingMalwareFields | stix2/test/test_stix2.py:248-258 | an empty malware reports `labels` missing, and one given only `labels` reports `name` |
| Scenarios.MissingRelationshipFields | stix2/test/test_stix2.py:332-352 | an empty relationship reports `relationship_type` missing, then `source_ref` once that is given, then `target_ref` |
| Scenarios.RelationshipMissing | stix2/test/test_stix2.py:332-352 | for any arguments that supply the relationship's required fields before position `i` and not the one at `i`, the one at `i` is reported |
| Scenarios.UnexpectedRejected | stix2/test/test_stix2.py:185-188 | adding any unknown keyword to a kind's minimum arguments reports that name, and only it |
| Scenarios.CustomPropertyRejected | stix2/test/test_stix2.py:268-271 | `my_custom_property` added to the indicator, malware and relationship arguments is reported on its own for each |
| Scenarios.TypeTextIndicator | stix2/test/test_stix2.py:151-155 | the text is "Indicator must have type='indicator'." |
| Scenarios.TypeTextMalware | stix2/test/test_stix2.py:234-238 | the text is "Malware must have type='malware'." |
| Scenarios.TypeTextRelationship | stix2/test/test_stix2.py:318-322 | the text is "Relationship must have type='relationship'." |
| Scenarios.TypeTextBundle | stix2/test/test_stix2.py:437-441 | the text is "Bundle must have type='bundle'." |
| Scenarios.SpecVersionText | stix2/test/test_stix2.py:451-455 | the text is "Bundle must have spec_version='2.0'." |
| Scenarios.IdTextIndicator | stix2/test/test_stix2.py:158-162 | the text is "Indicator id values must begin with 'indicator--'." |
| Scenarios.IdTextMalware | stix2/test/test_stix2.py:241-245 | the text is "Malware id values must begin with 'malware--'." |
| Scenarios.IdTextRelationship | stix2/test/test_stix2.py:325-329 | the text is "Relationship id values must begin with 'relationship--'." |
| Scenarios.IdTextBundle | stix2/test/test_stix2.py:444-448 | the text is "Bundle id values must begin with 'bundle--'." |
| Scenarios.MissingTextIndicatorLabels | stix2/test/test_stix2.py:165-169 | the text is "Missing required field for Indicator: 'labels'." |
| Scenarios.MissingTextIndicatorPattern | stix2/test/test_stix2.py:171-175 | the text is "Missing required field for Indicator: 'pattern'." |
| Scenarios.MissingTextMalwareLabels | stix2/test/test_stix2.py:248-252 | the text is "Missing required field for Malware: 'labels'." |
| Scenarios.MissingTextMalwareName | stix2/test/test_stix2.py:254-258 | the text is "Missing required field for Malware: 'name'." |
| Scenarios.MissingTextRelationshipType | stix2/test/test_stix2.py:332-336 | the text is "Missing required field for Relationship: 'relationship_type'." |
| Scenarios.MissingTextRelationshipSource | stix2/test/test_stix2.py:338-343 | the text is "Missing required field for Relationship: 'source_ref'." |
| Scenarios.MissingTextRelationshipTarget | stix2/test/test_stix2.py:345-352 | the text is "Missing required field for Relationship: 'target_ref'." |
| Scenarios.UnexpectedFieldText | stix2/test/test_stix2.py:185-188 | the unknown-name error for `my_custom_property` reads "unexpected keyword arguments: ['my_custom_property']" |
| Scenarios.IndicatorBuilt | stix2/test/test_stix2.py:88-91 | the indicator's minimum arguments build a record under any valid environment |
| Scenarios.IndicatorHasEveryField | stix2/test/test_stix2.py:133-148 | an indicator has no optional field, so every built indicator holds all seven fields |
| Fixtures.MinimumAccepted | stix2/test/test_stix2.py:68-101 | arguments that supply exactly the required fields of a kind, with the right shapes, always build a record |
| Fixtures.MinimumFresh | stix2/test/test_stix2.py:300-316 | such a construction consumes one id and stores it behind the kind's prefix as the record's id |
| Fixtures.MinimumDefaults | stix2/test/test_stix2.py:218-232 | such a construction sets `type` to the kind's tag, the id to the next generated one, and every current-time field to the captured "now" |
| Fixtures.IndicatorAutogenerated | stix2/test/test_stix2.py:133-148 | under the test fixtures the indicator gets type "indicator", the first generated id, the frozen clock for `created`, `modified` and `valid_from`, and its two arguments as given |
| Fixtures.BundleOfObjects | stix2/test/test_stix2.py:458-461 | a bundle given only a list of records keeps that list in order and takes the next generated id |
| Fixtures.IdsInCallOrder | stix2/test/test_stix2.py:81-100 | building an indicator, a malware and a relationship, each from its own minimum keyword arguments, then a bundle of all three, each from the state the previous one left, succeeds; they take ids one to four after the starting count, in call order; the relationship stores the two references its arguments give, and the bundle holds the three records in order |
| Fixtures.BundleTestFixtures | stix2/test/test_stix2.py:458-461 | with the test's fixtures and a fresh generator, the indicator, malware, relationship and bundle take ids one to four; the relationship refers to the constant indicator and malware ids of its keyword arguments, not to the two fixtures built before it; the bundle holds the three records in order |
| Fixtures.RelationshipAndBundle | stix2/test/test_stix2.py:368-379 | for any two records with ids, the relationship between them and the bundle of all three are built and take consecutive ids |
| Expected.MalwareBuilt | stix2/test/test_stix2.py:203-213 | supplying every malware field builds exactly the record those arguments describe and draws no id |
| Expected.MalwareKeysSorted | stix2/test/test_stix2.py:191-200 | the malware's field names sort as created, id, labels, modified, name, type |
| Expected.MalwareSerialized | stix2/test/test_stix2.py:191-215 | a fully supplied malware serialises to one line per field in key order, with the timestamp as its UTC text, for any plain values |
| Expected.ThenText | stix2/test/test_stix2.py:204 | 2016-05-12 08:17:27 UTC formats as `2016-05-12T08:17:27Z` |
| Expected.ExpectedMalware | stix2/test/test_stix2.py:191-215 | the test's malware serialises to exactly the text the test expects |

## Left out

- The wall clock (`get_timestamp`) and `uuid4` are inputs: the captured "now" and the id generator sit in `Records.Env`. The test fixtures' particular uuid text is not modelled; `Scenarios.Fixture` takes any generator that has handed out nothing.
- The `dateutil` text parser is a function parameter that returns fields and an optional offset, or a rejection.
- For text the parser rejects, `parse_into_datetime` lets the parser's own error through (`UnparseableText`). Only a non-text value reaches the "must be a datetime object…" error, because only a `TypeError` is caught.
- `json.loads` and `json.load` in `get_dict` are one decoder parameter; reading a stream is modelled as its contents.
- The pytz zone database and DST rules are not modelled: a zone is a fixed offset in whole minutes, strictly inside one day. `Scenarios.Localized` takes the offset each test value has.
- Seconds offsets and `fold` are not modelled.
- `Timestamps.FormatDateTime`: the naive branch is modelled as the code reads under Python 3 before 3.6. There `astimezone` raises `ValueError` and `zoned` is left unassigned. From Python 3.6, `astimezone` instead reads a naive value as system local time, which depends on the host. Python 2 is not modelled: its `strftime` also rejects years before 1900, which `Timestamps.FormatDateTime` formats.
- `Timestamps.ParseIntoDatetime`: the date branch follows Python 3.6 and later, where `datetime.combine` takes a `tzinfo`. No single interpreter version shows both this branch and the naive `FormatDateTime` branch above; each function is modelled as its own lines read on the version where they run. A stream, which the `dateutil` parser also reads, is treated as any other non-text value and gives the "must be a datetime object…" error.
- Canonical serialisation uses `Timestamps.FormatDateTimeIntended`. It differs from the code as written only on naive values.
- `%Y` is rendered as four digits for every year. C libraries differ on padding years below 1000.
- The indicator `pattern` is opaque text.
- JSON escaping covers only `"` and `\`. The values the tests serialise contain neither.
- The record classes' own source is not part of this model.
- `Records.Construct`: the order of the checks (header fields, first missing field, coercion and defaults in declared order, then unknown names) is a modelling choice. The tests fix only part of it: a wrong `type` with nothing else supplied, and a missing field with the rest absent. Every unknown-name test passes otherwise valid arguments, so which error wins when an unknown name meets a missing field or a bad value is not shown.
- `Records.Construct`: a supplied value of the wrong shape (a list for a text field, text for a list) fails with `InvalidValue` and the message "Invalid value for <Class> '<field>'.". The tests show no such case, so both the error and its text are the model's own.
- `Errors.Message`: several unknown names are listed in sorted order. The tests only ever pass one unknown name, so the order is the model's choice.
- A failed construction returns no generator state, so whether a failed call consumed an id is not modelled.
- Positional `Relationship(source, relationship_type, target)` is `Records.RelationshipOf`, defined as the keyword form with those three names.
- Attribute access and key access are the one function `Records.Get`.
- Field types the tests never exercise (`created_by_ref`, `external_references`, granular markings, and the like) are not in the schemas.
- `stix2/test/test_workbench.py` is outside this model. It exercises a global convenience environment, a data store and a filesystem source.

## Findings

| source | as written | input that shows it | evidently intended | confidence | as-written member | corrected member |
|---|---|---|---|---|---|---|
| stix2/utils.py:26-30 | the `except ValueError` branch calls `pytz.utc.localize(dttm)` and discards the result, then reads `zoned`, which was never assigned | any naive `datetime`, such as `datetime(2017, 1, 1)`, on Python before 3.6 (Scenarios.NaiveNewYear) | the comment's "assume UTC": `zoned = pytz.utc.localize(dttm)`, so that the value is formatted with its fields unchanged | not executed | Timestamps.FormatDateTime | Timestamps.FormatDateTimeIntended |
