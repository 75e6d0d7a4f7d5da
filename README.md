# SenML measurements and packs, modelled in Dafny

This project models the core of a Python library for Sensor Measurement
Lists (SenML JSON, RFC 8428): the record type `SenMLMeasurement` and the pack
type `SenMLDocument` of `senml/senml.py`, with their mapping from and to
already-decoded JSON, and the merge of a record with its base record.

- `wrappers.dfy` (module `Wrappers`): `Option`, for the six optional fields.
- `json.dfy` (module `JsonTree`): the decoded JSON tree. A scalar is
  `JNull | JBool | JNum(real) | JStr`, a record is a `map<string, Json>`,
  a pack is a `seq` of records. `Get` is `dict.get`: a missing key and an
  explicit JSON null both give "unset".
- `measurement.dfy` (module `SenMLMeasurement`): the value kinds
  `Num | Bool | Text | Raw` (Text is the unicode string read from `vs`,
  Raw the byte string read from `vd`; the model gives both the characters
  of the JSON string and tells them apart only by their key, so the encoding
  error of `str(...)` on non-ASCII text is not modelled), the
  measurement, `BaseFromJson` (keys `bn bt biso8601 bu bv`), `FromJson`
  (keys `n t iso8601 u v s`, with the value falling back to `vs`, then
  `vb`, then `vd`), `ToJson` and its step-by-step builder `BuildJson`, and
  `ToAbsolute`, the merge with a base following section 4.5.3 of RFC 8428
  as this library reads it.
- `document.dfy` (module `SenMLDocument`): the pack, `FromJson`
  (base from element 0, every element a measurement), `ToJson` and its
  builder `BuildJson` (header `bver: 5` plus the base's `b`-keys, built by
  `BuildHeader`, merged into element 0), `ToNormalizedJson`, and the round
  trips.
- `examples.dfy` (module `SenMLExamples`): the vectors of
  `tests/test_senml.py` as lemmas.

Numbers are exact `real`s: the library only adds them, and the tests compare
with a tolerance that exact arithmetic does not need. The constructor of
`SenMLDocument` is the datatype constructor `Document(measurements, base)`;
its defaults are `Document([], None)`.

Behaviour of the code that the model keeps as written:

- The base isotime is written under `bisotime` (senml/senml.py:155-156) but
  read from `biso8601` (senml/senml.py:49). The pack round trip therefore
  needs the base isotime unset; `SenMLDocument.BaseIsotimeLost` and
  `SenMLExamples.BaseIsotimeCounterexample` show the loss.
  `SenMLDocument.ReadBack` states exactly what survives writing and parsing
  a pack: every measurement, and as base `Recovered(base)`, the base without
  isotime and sum and with a boolean value turned into a number.
- A record without a value stays without one in `to_absolute`; no base value
  is added (senml/senml.py:36).
- Unit and isotime fall back to the base when the record's is unset or the
  empty string, since the code uses `or` (senml/senml.py:30, 32).
- The base value enters a sum as `base.value or 0.0`: a boolean counts as 1
  or 0, an empty string as 0 (`Addend`). A non-empty string there raises a
  type error in the code, which the model excludes by `Resolvable`.
- The value from `v` or `bv` is stored without coercion, so a JSON string
  there becomes a Text value and a JSON boolean a Bool value; `vb` goes
  through Python truthiness (`Truthy`).
- `from_json` on an empty array fails by indexing element 0
  (senml/senml.py:130); the model requires a non-empty array. The library
  defines no error type of its own, and no coercion of `t`, `s` or `v` on
  input: the model follows the code.
- `to_json` of a pack with no measurements is `[]`, for any base `to_json` can
  write (unset, numeric or boolean value): the base value goes through
  `float(...)` (senml/senml.py:153-154) before the measurements are looked at
  (senml/senml.py:158).

## Model

| member | source | states |
|---|---|---|
| `SenMLMeasurement.BaseFromJson` | senml/senml.py:42-53 | the base's sum is never set; each field is set exactly when its `b`-key is present and not null |
| `SenMLMeasurement.FromJson` | senml/senml.py:55-75 | each field is set exactly when its key is present and not null; the value is set exactly when `v` is non-null or one of `vs`, `vb`, `vd` is present |
| `SenMLMeasurement.FallbackValue` | senml/senml.py:67-73 | the value read when `v` is unset: `vs`, else `vb`, else `vd`, else none; its order is stated by `ValuePriority` |
| `SenMLMeasurement.ValuePriority` | senml/senml.py:64-73 | a non-null `v` wins; otherwise `vs` gives Text, else `vb` gives Bool by truthiness, else `vd` gives Raw, else no value |
| `SenMLMeasurement.FromJsonReadsRecordKeys` | senml/senml.py:56-75 | two objects that agree on `n t iso8601 u v s vs vb vd` parse to the same record |
| `SenMLMeasurement.BaseFromJsonReadsBaseKeys` | senml/senml.py:43-53 | two objects that agree on `bn bt biso8601 bu bv` parse to the same base |
| `SenMLMeasurement.ParsersIndependent` | senml/senml.py:43-75 | the two key sets are disjoint; changing base keys leaves the record unchanged, changing record keys leaves the base unchanged |
| `SenMLMeasurement.ToJson` | senml/senml.py:77-104 | the record object; its keys are stated by `ToJsonKeys`, its round trips by `FromJsonToJson` and `ToJsonFromJson` |
| `SenMLMeasurement.ToJsonKeys` | senml/senml.py:77-104 | only record keys; `n t iso8601 u s` present exactly when the field is set; the value keys are exactly the one of the value's kind (`vb`, `vd`, `vs`, `v`) or none when unset |
| `SenMLMeasurement.BuildJson` | senml/senml.py:77-104 | the object built by successive conditional insertions equals `ToJson` |
| `SenMLMeasurement.ToJsonParsable` | senml/senml.py:77-104 | a written record satisfies what the record parser needs |
| `SenMLMeasurement.FromJsonToJson` | senml/senml.py:56-104 | parsing a written measurement gives it back, for every measurement |
| `SenMLMeasurement.ToJsonFromJson` | senml/senml.py:56-104 | writing a parsed well-formed record (typed keys, at most one value key) gives it back |
| `SenMLMeasurement.ToAbsolute` | senml/senml.py:21-40 | name = base name + record name and time = base time + record time, both always set; unit and isotime from the record unless unset or empty; sum from the record; a Bool, Text or Raw value unchanged, a numeric one plus the base addend, an absent one absent |
| `SenMLMeasurement.AbsoluteIgnoresBaseSumAndNonNumeric` | senml/senml.py:27-37 | bases that differ only in sum and value resolve a record without a numeric value identically |
| `SenMLMeasurement.UnsetBaseNeutral` | senml/senml.py:27-37 | a base with nothing set leaves a record with name, time and non-empty unit and isotime unchanged |
| `SenMLMeasurement.AbsoluteJsonSelfContained` | senml/senml.py:27-29 | a resolved record written out always has `n` and `t` and no base key |
| `SenMLDocument.FromJson` | senml/senml.py:123-136 | the base is `BaseFromJson` of element 0; one measurement per element, in order, element 0 included |
| `SenMLDocument.Header` | senml/senml.py:140-156 | the `bver`/`b`-key part of element 0; its keys are stated by `HeaderKeysOf`, what parses back from it by `HeaderParsed` |
| `SenMLDocument.HeaderKeysOf` | senml/senml.py:140-156 | `bver: 5` always; `bn bt bu bv bisotime` exactly for the set base fields; no record key; only `bver` without a base |
| `SenMLDocument.BuildHeader` | senml/senml.py:140-156 | the header built by successive insertions equals `Header` |
| `SenMLDocument.ToJson` | senml/senml.py:138-165 | as many elements as measurements (none gives `[]`); element 0 is the header merged with measurement 0's object; element i ≥ 1 is measurement i's object |
| `SenMLDocument.BuildJson` | senml/senml.py:138-165 | the array built by the update of the header and the loop over the remaining measurements equals `ToJson` |
| `SenMLDocument.ToNormalizedJson` | senml/senml.py:167-171 | as many elements as measurements; no element has a header key or a base key; every element has `n` and `t` |
| `SenMLDocument.NormalizedParsesToAbsolute` | senml/senml.py:167-171 | element i of the normalised array parses back to measurement i resolved against the base |
| `SenMLDocument.HeaderParsed` | senml/senml.py:140-156 | a written header on its own parses to the recovered base: name, time and unit kept, isotime and sum unset, a boolean value turned into 1 or 0 |
| `SenMLDocument.HeaderReadBack` | senml/senml.py:43-53 | the same holds whatever record keys sit beside the header |
| `SenMLDocument.FirstElementParsesBack` | senml/senml.py:130-132 | element 0 as written parses to the recovered base and to measurement 0 |
| `SenMLDocument.ReadBack` | senml/senml.py:124-165 | parsing the compact array of any non-empty pack gives back every measurement, and the recovered base as base |
| `SenMLDocument.RoundTripFromModel` | senml/senml.py:124-165 | parsing the compact array of a non-empty pack gives the pack back when the base has no isotime, sum or non-numeric value |
| `SenMLDocument.HeaderOfParsed` | senml/senml.py:144-154 | the header written for the base parsed from a well-formed first element is that element's `bver`/`b`-key part |
| `SenMLDocument.FirstElementRoundTrip` | senml/senml.py:158-160 | header plus record object rebuilt from a parsed well-formed first element is that element |
| `SenMLDocument.LaterRecordsRoundTrip` | senml/senml.py:161 | elements after the first of a well-formed array are written back unchanged |
| `SenMLDocument.RoundTripFromJson` | senml/senml.py:124-165 | writing a parsed well-formed compact array gives the array back |
| `SenMLDocument.BaseIsotimeLost` | senml/senml.py:155-156 | when the base has an isotime, element 0 carries `bisotime` and no `biso8601`, so the parsed pack has a base without isotime and differs from the pack written |
| `SenMLExamples.PackParses` | tests/test_senml.py:46-64 | the test pack parses to its base (name, time, unit; no sum, no value) and its four records |
| `SenMLExamples.SecondRecordRoundTrip` | tests/test_senml.py:67-71 | record 1 of the test pack is written back unchanged |
| `SenMLExamples.PackRoundTrip` | tests/test_senml.py:74-78 | the test pack is written back unchanged |
| `SenMLExamples.SecondRecordAbsolute` | tests/test_senml.py:81-90 | record 1 resolved against the base has the joined name, time 1234567897.123, the base unit, value 123.456 and sum 4 |
| `SenMLExamples.PackNormalized` | tests/test_senml.py:93-123 | the normalised test pack is the expected absolute array |
| `SenMLExamples.BaseIsotimeCounterexample` | senml/senml.py:147-156 | a pack whose base has an isotime is not recovered by writing and parsing it |

## Left out

- JSON text encoding and decoding: the model starts from the decoded tree. Nested arrays and objects as field values are not representable.
- Float representation and rounding of `float(...)`: numbers are exact reals and the output conversions `float(...)` and `unicode(...)` are the identity on them.
- Key order of the produced dictionaries: objects are maps.
- `measurement_factory` and the `*args`/`**kwargs` of `SenMLDocument.__init__`, and the use of `self.__class__` for subclasses: language plumbing.
- `senml/__init__.py`: re-exports and a package-metadata version lookup.
- CBOR, base sum `bs`, and checking `bver` on input: the code has none of them.
- The measurement list `None`: modelled as the empty sequence, which is what `to_json` does with it; `to_normalized_json` would fail on it.
- `SenMLMeasurement.FromJson`: requires `n`, `iso8601`, `u` to be strings or null, `t`, `s` numbers or null, and the consulted `vs`/`vd` a string; the code stores other JSON types unchecked or coerces them with `str`/`unicode`, which the model does not render. A `vd` string with a non-ASCII character makes `str(...)` raise an encoding error in the code (senml/senml.py:73); the model accepts it as a Raw value, so `ToJsonFromJson` and `RoundTripFromJson` also cover such inputs, which the code rejects.
- `SenMLMeasurement.BaseFromJson`: requires `bn`, `biso8601`, `bu` to be strings or null and `bt` a number or null, for the same reason.
- `SenMLMeasurement.ToAbsolute`: requires, for a numeric record value, a base value that `or 0.0` can add (`Resolvable`); the code raises a type error otherwise.
- `SenMLDocument.ToJson`: requires a base value that `float(...)` converts without parsing text (unset, numeric or boolean); string-to-number parsing is not modelled.
- `SenMLDocument.ToNormalizedJson`: requires a base whenever there are measurements and each measurement resolvable against it; the code fails on a missing base.
- `SenMLDocument.FromJson`: requires a non-empty array; the code fails with an index error on an empty one.
