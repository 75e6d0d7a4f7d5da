/**
 * A SenML pack (senml/senml.py, class SenMLDocument): an ordered list of
 * measurements and one base measurement, with the mapping from and to the
 * compact JSON array and the normalised (resolved) array.
 */
module SenMLDocument {
  import opened Wrappers
  import opened JsonTree
  import M = SenMLMeasurement

  /**
   * The constructor's defaults (no measurements, no base) are
   * Document([], None); an unset measurement list is the empty sequence.
   */
  datatype Document = Document(measurements: seq<M.Measurement>, base: Option<M.Measurement>)

  /** The version marker written into the first element. */
  const Version: Json := JNum(5.0)

  /** The keys the first element's header may carry on output. */
  const HeaderKeys: set<string> := {"bver", "bn", "bt", "bu", "bv", "bisotime"}

  // ---------------------------------------------------------------------
  // Parsing

  predicate RecordsParsable(js: seq<Object>) {
    forall i :: 0 <= i < |js| ==> M.RecordParsable(js[i])
  }

  /**
   * from_json: the base from the first element, and every element,
   * the first included, as one measurement, in order.
   */
  function FromJson(js: seq<Object>): (d: Document)
    requires |js| > 0
    requires M.BaseParsable(js[0]) && RecordsParsable(js)
    ensures d.base == Some(M.BaseFromJson(js[0]))
    ensures |d.measurements| == |js|
    ensures forall i :: 0 <= i < |js| ==> d.measurements[i] == M.FromJson(js[i])
  {
    Document(seq(|js|, i requires 0 <= i < |js| && RecordsParsable(js) => M.FromJson(js[i])),
             Some(M.BaseFromJson(js[0])))
  }

  // ---------------------------------------------------------------------
  // Serialising

  /** `float(value)` succeeds on the base value: unset, numeric or boolean. */
  predicate FloatCoercible(v: Option<M.Value>) {
    v.None? || v.value.Num? || v.value.Bool?
  }

  /** `float(value)`: a boolean is 1.0 or 0.0. */
  function AsFloat(v: M.Value): real
    requires v.Num? || v.Bool?
  {
    if v.Num? then v.num else if v.flag then 1.0 else 0.0
  }

  /** to_json can write the base: its value, if any, converts to a number. */
  predicate Emittable(base: Option<M.Measurement>) {
    base.Some? ==> FloatCoercible(base.value.value)
  }

  /** What a header key holds: the version, or the base field the key stands for, if set. */
  function HeaderEntry(base: Option<M.Measurement>, key: string): Option<Json>
    requires Emittable(base)
  {
    if key == "bver" then Some(Version)
    else if base.None? then None
    else
      var b := base.value;
      if key == "bn" then (if b.name.Some? then Some(JStr(b.name.value)) else None)
      else if key == "bt" then (if b.time.Some? then Some(JNum(b.time.value)) else None)
      else if key == "bu" then (if b.unit.Some? then Some(JStr(b.unit.value)) else None)
      else if key == "bv" then (if b.value.Some? then Some(JNum(AsFloat(b.value.value))) else None)
      else if key == "bisotime" then (if b.isotime.Some? then Some(JStr(b.isotime.value)) else None)
      else None
  }

  /** The header restricted to some keys. */
  function HeaderOn(base: Option<M.Measurement>, keys: set<string>): Object
    requires Emittable(base)
  {
    map k | k in keys && HeaderEntry(base, k).Some? :: HeaderEntry(base, k).value
  }

  /** Adding one key to the restriction inserts that key when its field is set. */
  lemma HeaderOnInsert(base: Option<M.Measurement>, keys: set<string>, key: string, keys': set<string>)
    requires Emittable(base)
    requires key !in keys && keys' == keys + {key}
    ensures HeaderOn(base, keys') ==
              if HeaderEntry(base, key).Some? then HeaderOn(base, keys)[key := HeaderEntry(base, key).value]
              else HeaderOn(base, keys)
  {
  }

  /** The header of the first element: the version marker and the set base fields. */
  function Header(base: Option<M.Measurement>): Object
    requires Emittable(base)
  {
    HeaderOn(base, HeaderKeys)
  }

  /**
   * The keys of the header: the version marker always, and one "b"-key for
   * each set base field. The base isotime goes under "bisotime", a key
   * base_from_json does not read. No header key is a record key.
   */
  lemma HeaderKeysOf(base: Option<M.Measurement>)
    requires Emittable(base)
    ensures Header(base).Keys <= HeaderKeys && Header(base).Keys !! M.RecordKeys
    ensures "bver" in Header(base) && Header(base)["bver"] == Version
    ensures base.None? ==> Header(base).Keys == {"bver"}
    ensures base.Some? ==>
              && ("bn" in Header(base) <==> base.value.name.Some?)
              && ("bt" in Header(base) <==> base.value.time.Some?)
              && ("bu" in Header(base) <==> base.value.unit.Some?)
              && ("bv" in Header(base) <==> base.value.value.Some?)
              && ("bisotime" in Header(base) <==> base.value.isotime.Some?)
  {
    var h := Header(base);
    if base.None? {
      forall k | k in h ensures k == "bver" {
      }
    }
    forall k | k in h ensures k !in M.RecordKeys {
      assert k in HeaderKeys;
    }
  }

  /**
   * to_json: no measurements give the empty array; otherwise one object per
   * measurement, in order, the first also carrying the header.
   */
  function ToJson(d: Document): (r: seq<Object>)
    requires Emittable(d.base)
    ensures |r| == |d.measurements|
    ensures |r| > 0 ==> r[0] == Header(d.base) + M.ToJson(d.measurements[0])
    ensures forall i :: 1 <= i < |r| ==> r[i] == M.ToJson(d.measurements[i])
  {
    var ms := d.measurements;
    if |ms| == 0 then []
    else [Header(d.base) + M.ToJson(ms[0])] + seq(|ms| - 1, i requires 0 <= i < |ms| - 1 => M.ToJson(ms[i + 1]))
  }

  /** The first half of to_json: the header, one conditional insertion after another. */
  method BuildHeader(base: Option<M.Measurement>) returns (first: Object)
    requires Emittable(base)
    ensures first == Header(base)
  {
    ghost var done: set<string> := {"bver"};
    first := map["bver" := Version];
    assert first == HeaderOn(base, done);
    if base.Some? {
      var b := base.value;
      if b.name.Some? {
        first := first["bn" := JStr(b.name.value)];
      }
      HeaderOnInsert(base, done, "bn", done + {"bn"});
      done := done + {"bn"};
      if b.time.Some? {
        first := first["bt" := JNum(b.time.value)];
      }
      HeaderOnInsert(base, done, "bt", done + {"bt"});
      done := done + {"bt"};
      if b.unit.Some? {
        first := first["bu" := JStr(b.unit.value)];
      }
      HeaderOnInsert(base, done, "bu", done + {"bu"});
      done := done + {"bu"};
      if b.value.Some? {
        first := first["bv" := JNum(AsFloat(b.value.value))];
      }
      HeaderOnInsert(base, done, "bv", done + {"bv"});
      done := done + {"bv"};
      if b.isotime.Some? {
        first := first["bisotime" := JStr(b.isotime.value)];
      }
      HeaderOnInsert(base, done, "bisotime", HeaderKeys);
    } else {
      forall k | k in HeaderKeys
        ensures (k in first <==> HeaderEntry(base, k).Some?) && (k in first ==> first[k] == HeaderEntry(base, k).value)
      {
      }
    }
  }

  /** to_json as the source writes it: the header, measurement 0 merged into it, then the rest. */
  method BuildJson(d: Document) returns (ret: seq<Object>)
    requires Emittable(d.base)
    ensures ret == ToJson(d)
  {
    var first := BuildHeader(d.base);
    var ms := d.measurements;
    if |ms| > 0 {
      var head := M.BuildJson(ms[0]);
      first := first + head;
      ret := [first];
      for i := 1 to |ms|
        invariant |ret| == i
        invariant ret[0] == Header(d.base) + M.ToJson(ms[0])
        invariant forall j :: 1 <= j < i ==> ret[j] == M.ToJson(ms[j])
      {
        var item := M.BuildJson(ms[i]);
        ret := ret + [item];
      }
    } else {
      ret := [];
    }
  }

  // ---------------------------------------------------------------------
  // Normalising

  /**
   * to_normalized_json does not fail: there is a base whenever there is a
   * measurement, and every measurement can be resolved against it.
   */
  predicate Normalizable(d: Document) {
    && (d.base.Some? || d.measurements == [])
    && forall i :: 0 <= i < |d.measurements| ==> M.Resolvable(d.measurements[i], d.base.value)
  }

  /**
   * to_normalized_json: every measurement resolved against the base and
   * serialised, in order; no element carries a header key, and every
   * element carries a name and a time.
   */
  function ToNormalizedJson(d: Document): (r: seq<Object>)
    requires Normalizable(d)
    ensures |r| == |d.measurements|
    ensures forall i :: 0 <= i < |r| ==> r[i].Keys !! HeaderKeys && r[i].Keys !! M.BaseKeys
    ensures forall i :: 0 <= i < |r| ==> "n" in r[i] && "t" in r[i]
  {
    var ms := d.measurements;
    var r := seq(|ms|, i requires 0 <= i < |ms| && Normalizable(d) => M.ToJson(M.ToAbsolute(ms[i], d.base.value)));
    assert forall i :: 0 <= i < |r| ==> r[i].Keys !! HeaderKeys && r[i].Keys !! M.BaseKeys && "n" in r[i] && "t" in r[i] by {
      forall i | 0 <= i < |r|
        ensures r[i].Keys !! HeaderKeys && r[i].Keys !! M.BaseKeys && "n" in r[i] && "t" in r[i]
      {
        var a := M.ToAbsolute(ms[i], d.base.value);
        M.ToJsonKeys(a);
        M.AbsoluteJsonSelfContained(ms[i], d.base.value);
        forall k | k in r[i] ensures k !in HeaderKeys {
          assert k in M.RecordKeys;
        }
      }
    }
    r
  }

  /** Each normalised element parses back to the absolute measurement it was written from. */
  lemma NormalizedParsesToAbsolute(d: Document, i: int)
    requires Normalizable(d) && 0 <= i < |d.measurements|
    ensures M.RecordParsable(ToNormalizedJson(d)[i])
    ensures M.FromJson(ToNormalizedJson(d)[i]) == M.ToAbsolute(d.measurements[i], d.base.value)
  {
    M.FromJsonToJson(M.ToAbsolute(d.measurements[i], d.base.value));
  }

  // ---------------------------------------------------------------------
  // Round trips

  /**
   * What base_from_json recovers from a written header: the base without
   * its isotime and its sum, and with a boolean value turned into a number.
   */
  function Recovered(base: Option<M.Measurement>): M.Measurement
    requires Emittable(base)
  {
    match base
    case None => M.Unset
    case Some(b) =>
      b.(isotime := None, sum := None,
         value := if b.value.Some? then Some(M.Num(AsFloat(b.value.value))) else None)
  }

  /** Parsing a written header, whatever record keys sit beside it, recovers the base as far as it can. */
  lemma HeaderReadBack(base: Option<M.Measurement>, rest: Object)
    requires Emittable(base)
    requires rest.Keys <= M.RecordKeys
    ensures M.BaseParsable(Header(base) + rest)
    ensures M.BaseFromJson(Header(base) + rest) == Recovered(base)
  {
    var h := Header(base);
    HeaderParsed(base);
    forall k | k in M.BaseKeys
      ensures (k in h <==> k in h + rest) && (k in h ==> h[k] == (h + rest)[k])
    {
      assert k !in M.RecordKeys;
    }
    M.BaseFromJsonReadsBaseKeys(h, h + rest);
  }

  /** The header on its own parses back to the recovered base. */
  lemma HeaderParsed(base: Option<M.Measurement>)
    requires Emittable(base)
    ensures M.BaseParsable(Header(base))
    ensures M.BaseFromJson(Header(base)) == Recovered(base)
  {
    var h := Header(base);
    assert "bn" in HeaderKeys && "bt" in HeaderKeys && "bu" in HeaderKeys && "bv" in HeaderKeys;
    assert "biso8601" !in h by {
      assert "biso8601" !in HeaderKeys;
    }
  }

  /**
   * The first element written for a base and a record parses back to the
   * record and, as base, to what the header lets the parser recover.
   */
  lemma FirstElementParsesBack(base: Option<M.Measurement>, m: M.Measurement)
    requires Emittable(base)
    ensures var e := Header(base) + M.ToJson(m);
      && M.BaseParsable(e) && M.BaseFromJson(e) == Recovered(base)
      && M.RecordParsable(e) && M.FromJson(e) == m
  {
    var h := Header(base);
    var r := M.ToJson(m);
    M.ToJsonKeys(m);
    HeaderKeysOf(base);
    HeaderReadBack(base, r);
    forall k | k in M.RecordKeys
      ensures (k in r <==> k in h + r) && (k in r ==> r[k] == (h + r)[k])
    {
    }
    M.FromJsonToJson(m);
    M.FromJsonReadsRecordKeys(r, h + r);
  }

  /**
   * Parsing the compact array of a non-empty document gives back every
   * measurement and, as the base, what the header lets the parser recover.
   */
  lemma ReadBack(d: Document)
    requires |d.measurements| > 0 && Emittable(d.base)
    ensures var js := ToJson(d);
      && |js| > 0 && M.BaseParsable(js[0]) && RecordsParsable(js)
      && FromJson(js) == Document(d.measurements, Some(Recovered(d.base)))
  {
    var js := ToJson(d);
    var ms := d.measurements;
    FirstElementParsesBack(d.base, ms[0]);
    forall i | 0 <= i < |js|
      ensures M.RecordParsable(js[i]) && M.FromJson(js[i]) == ms[i]
    {
      if i == 0 {
      } else {
        M.FromJsonToJson(ms[i]);
      }
    }
    var back := FromJson(js);
    assert back.measurements == ms by {
      forall i | 0 <= i < |ms| ensures back.measurements[i] == ms[i] {
      }
    }
  }

  /**
   * Parsing the compact array of a document with a base gives the document
   * back, provided the base has no isotime (written under a key the parser
   * does not read), no sum and no non-numeric value.
   */
  lemma RoundTripFromModel(d: Document)
    requires |d.measurements| > 0 && d.base.Some?
    requires d.base.value.isotime.None? && d.base.value.sum.None?
    requires d.base.value.value.None? || d.base.value.value.value.Num?
    ensures var js := ToJson(d);
      |js| > 0 && M.BaseParsable(js[0]) && RecordsParsable(js) && FromJson(js) == d
  {
    ReadBack(d);
    assert Recovered(d.base) == d.base.value;
  }

  /** The header keys the parser reads back. */
  const ReadHeaderKeys: set<string> := {"bver", "bn", "bt", "bu", "bv"}

  /**
   * A first element as to_json writes it for a base without isotime: the
   * version marker, "b"-keys of the written types, and a well-formed record.
   */
  predicate WellFormedFirst(e: Object) {
    && "bver" in e && e["bver"] == Version
    && ("bn" in e ==> e["bn"].JStr?) && ("bt" in e ==> e["bt"].JNum?)
    && ("bu" in e ==> e["bu"].JStr?) && ("bv" in e ==> e["bv"].JNum?)
    && M.WellFormedRecord(e - ReadHeaderKeys)
  }

  predicate WellFormedDocument(js: seq<Object>) {
    && |js| > 0 && WellFormedFirst(js[0])
    && forall i :: 1 <= i < |js| ==> M.WellFormedRecord(js[i])
  }

  /** The header written for the base parsed from a first element is that element's header part. */
  lemma HeaderOfParsed(e: Object)
    requires WellFormedFirst(e)
    ensures M.BaseParsable(e)
    ensures var b := M.BaseFromJson(e);
      Emittable(Some(b)) && Header(Some(b)) == Restrict(e, ReadHeaderKeys)
  {
    var rec := e - ReadHeaderKeys;
    assert "biso8601" !in e by {
      assert "biso8601" !in rec.Keys;
    }
    var b := M.BaseFromJson(e);
    var h := Header(Some(b));
    var part := Restrict(e, ReadHeaderKeys);
    forall k | k in HeaderKeys
      ensures (k in h <==> k in part) && (k in h ==> h[k] == part[k])
    {
    }
    forall k | k in part ensures k in HeaderKeys {
    }
  }

  /** Writing the first element of a parsed well-formed array gives that element back. */
  lemma FirstElementRoundTrip(e: Object)
    requires WellFormedFirst(e)
    ensures M.BaseParsable(e) && M.RecordParsable(e)
    ensures Emittable(Some(M.BaseFromJson(e)))
    ensures Header(Some(M.BaseFromJson(e))) + M.ToJson(M.FromJson(e)) == e
  {
    var rec := e - ReadHeaderKeys;
    M.ToJsonFromJson(rec);
    forall k | k in M.RecordKeys
      ensures (k in rec <==> k in e) && (k in rec ==> rec[k] == e[k])
    {
    }
    M.FromJsonReadsRecordKeys(rec, e);
    HeaderOfParsed(e);
    RestrictAndRest(e, ReadHeaderKeys);
  }

  /** Every record after the first is written back unchanged. */
  lemma LaterRecordsRoundTrip(js: seq<Object>)
    requires forall i :: 1 <= i < |js| ==> M.WellFormedRecord(js[i])
    ensures forall i :: 1 <= i < |js| ==> M.RecordParsable(js[i]) && M.ToJson(M.FromJson(js[i])) == js[i]
  {
    forall i | 1 <= i < |js| ensures M.RecordParsable(js[i]) && M.ToJson(M.FromJson(js[i])) == js[i] {
      M.ToJsonFromJson(js[i]);
    }
  }

  /** Writing a parsed well-formed array gives the array back. */
  lemma RoundTripFromJson(js: seq<Object>)
    requires WellFormedDocument(js)
    ensures M.BaseParsable(js[0]) && RecordsParsable(js)
    ensures var d := FromJson(js); Emittable(d.base) && ToJson(d) == js
  {
    FirstElementRoundTrip(js[0]);
    LaterRecordsRoundTrip(js);
    forall i | 0 <= i < |js| ensures M.RecordParsable(js[i]) {
      if i == 0 {
      } else {
      }
    }
    var d := FromJson(js);
    var out := ToJson(d);
    assert |out| == |js|;
    forall i | 0 <= i < |js| ensures out[i] == js[i] {
      if i == 0 {
      } else {
      }
    }
  }

  /**
   * The base isotime does not survive: to_json writes it under "bisotime",
   * base_from_json looks for "biso8601", so the parsed base has no isotime.
   */
  lemma BaseIsotimeLost(d: Document)
    requires |d.measurements| > 0 && Emittable(d.base)
    requires d.base.Some? && d.base.value.isotime.Some?
    ensures var js := ToJson(d);
      && "bisotime" in js[0] && "biso8601" !in js[0]
      && M.BaseParsable(js[0]) && RecordsParsable(js)
      && FromJson(js).base.value.isotime.None? && FromJson(js) != d
  {
    var h := Header(d.base);
    var r := M.ToJson(d.measurements[0]);
    HeaderKeysOf(d.base);
    M.ToJsonKeys(d.measurements[0]);
    ReadBack(d);
    assert "biso8601" !in h by {
      assert "biso8601" !in HeaderKeys;
    }
    assert "biso8601" !in r by {
      assert "biso8601" !in M.RecordKeys;
    }
  }
}
