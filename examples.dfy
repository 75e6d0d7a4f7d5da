/**
 * The test vectors of tests/test_senml.py, stated as lemmas about the model.
 * Numbers are exact reals, so the tests' float tolerance is not needed.
 */
module SenMLExamples {
  import opened Wrappers
  import opened JsonTree
  import M = SenMLMeasurement
  import D = SenMLDocument

  const Prefix: string := "urn:dev:mac:0b92569229fc9e68/rpm/"

  /** The compact pack the tests parse. */
  const Pack: seq<Object> := [
    map["bn" := JStr(Prefix), "bt" := JNum(1234567890.123), "bu" := JStr("1/min"),
        "bver" := JNum(5.0), "n" := JStr("fwd"), "v" := JNum(17.666544),
        "s" := JNum(3.0), "t" := JNum(5.0)],
    map["n" := JStr("rev"), "v" := JNum(123.456), "s" := JNum(4.0), "t" := JNum(7.0)],
    map["n" := JStr("bool"), "vb" := JBool(true), "t" := JNum(1.0)],
    map["n" := JStr("str"), "vs" := JStr("hej"), "t" := JNum(2.0)]
  ]

  /** The normalised pack the tests expect. */
  const Absolute: seq<Object> := [
    map["s" := JNum(3.0), "v" := JNum(17.666544), "u" := JStr("1/min"),
        "t" := JNum(1234567895.123), "n" := JStr(Prefix + "fwd")],
    map["s" := JNum(4.0), "v" := JNum(123.456), "u" := JStr("1/min"),
        "t" := JNum(1234567897.123), "n" := JStr(Prefix + "rev")],
    map["vb" := JBool(true), "u" := JStr("1/min"),
        "t" := JNum(1234567891.123), "n" := JStr(Prefix + "bool")],
    map["vs" := JStr("hej"), "u" := JStr("1/min"),
        "t" := JNum(1234567892.123), "n" := JStr(Prefix + "str")]
  ]

  /** The first element of the pack is well formed. */
  lemma FirstWellFormed()
    ensures D.WellFormedFirst(Pack[0])
  {
    var rec := Pack[0] - D.ReadHeaderKeys;
    assert rec == map["n" := JStr("fwd"), "v" := JNum(17.666544), "s" := JNum(3.0), "t" := JNum(5.0)];
  }

  /** The pack is a well-formed compact array. */
  lemma PackWellFormed()
    ensures D.WellFormedDocument(Pack)
  {
    FirstWellFormed();
    forall i | 1 <= i < 4 ensures M.WellFormedRecord(Pack[i]) {
      if i == 1 {
      } else if i == 2 {
      } else {
      }
    }
  }

  /** A plain record is written back unchanged (tests/test_senml.py:67-71). */
  lemma SecondRecordRoundTrip()
    ensures M.RecordParsable(Pack[1]) && M.ToJson(M.FromJson(Pack[1])) == Pack[1]
  {
    M.ToJsonFromJson(Pack[1]);
  }

  /** The whole pack is written back unchanged (tests/test_senml.py:74-78). */
  lemma PackRoundTrip()
    ensures M.BaseParsable(Pack[0]) && D.RecordsParsable(Pack)
    ensures D.Emittable(D.FromJson(Pack).base) && D.ToJson(D.FromJson(Pack)) == Pack
  {
    PackWellFormed();
    D.RoundTripFromJson(Pack);
  }

  /** The second record resolved against the base (tests/test_senml.py:81-90). */
  lemma SecondRecordAbsolute()
    ensures M.BaseParsable(Pack[0]) && M.RecordParsable(Pack[1])
    ensures M.Resolvable(M.FromJson(Pack[1]), M.BaseFromJson(Pack[0]))
    ensures M.ToAbsolute(M.FromJson(Pack[1]), M.BaseFromJson(Pack[0])) ==
              M.Measurement(Some(Prefix + "rev"), Some(1234567897.123), None, Some("1/min"),
                            Some(M.Num(123.456)), Some(4.0))
  {
    PackParses();
    RecordAt(1);
  }

  /** The serialised form of a record with a name, a time, a unit, a value and perhaps a sum. */
  lemma ToJsonOfResolved(m: M.Measurement)
    requires m.name.Some? && m.time.Some? && m.unit.Some? && m.isotime.None? && m.value.Some?
    ensures M.ToJson(m) ==
              map["n" := JStr(m.name.value), "t" := JNum(m.time.value), "u" := JStr(m.unit.value),
                  M.ValueKey(m.value.value) := M.ValueJson(m.value.value)]
              + (if m.sum.Some? then map["s" := JNum(m.sum.value)] else map[])
  {
    var vk := M.ValueKey(m.value.value);
    var e := map["n" := JStr(m.name.value), "t" := JNum(m.time.value), "u" := JStr(m.unit.value),
                 vk := M.ValueJson(m.value.value)]
             + (if m.sum.Some? then map["s" := JNum(m.sum.value)] else map[]);
    var r := M.ToJson(m);
    assert vk in M.ValueKeys && vk in M.RecordKeys;
    forall k | k in M.RecordKeys ensures (k in r <==> k in e) && (k in r ==> r[k] == e[k]) {
      if k in M.ValueKeys {
        assert k in e <==> k == vk;
      } else {
        assert k != vk;
      }
    }
    assert e.Keys <= M.RecordKeys;
  }

  /** The base of the pack, resolved against which the records are normalised. */
  const Base: M.Measurement := M.Measurement(Some(Prefix), Some(1234567890.123), None, Some("1/min"), None, None)

  /** The records of the pack, as parsed. */
  const Records: seq<M.Measurement> := [
    M.Measurement(Some("fwd"), Some(5.0), None, None, Some(M.Num(17.666544)), Some(3.0)),
    M.Measurement(Some("rev"), Some(7.0), None, None, Some(M.Num(123.456)), Some(4.0)),
    M.Measurement(Some("bool"), Some(1.0), None, None, Some(M.Bool(true)), None),
    M.Measurement(Some("str"), Some(2.0), None, None, Some(M.Text("hej")), None)
  ]

  /**
   * The pack parses to Base and Records: the base comes from the "b"-keys of
   * the first element, which also yields the first record
   * (tests/test_senml.py:46-64).
   */
  lemma PackParses()
    ensures M.BaseParsable(Pack[0]) && D.RecordsParsable(Pack)
    ensures D.FromJson(Pack) == D.Document(Records, Some(Base))
  {
    forall i | 0 <= i < 4 ensures M.RecordParsable(Pack[i]) && M.FromJson(Pack[i]) == Records[i] {
      RecordAt(i);
    }
    var d := D.FromJson(Pack);
    assert d.measurements == Records;
  }

  /** One record of the pack. */
  lemma RecordAt(i: int)
    requires 0 <= i < 4
    ensures M.RecordParsable(Pack[i]) && M.FromJson(Pack[i]) == Records[i]
  {
  }

  /** One element of the normalised pack. */
  lemma NormalizedAt(i: int)
    requires 0 <= i < 4
    ensures M.Resolvable(Records[i], Base)
    ensures M.ToJson(M.ToAbsolute(Records[i], Base)) == Absolute[i]
  {
    ToJsonOfResolved(M.ToAbsolute(Records[i], Base));
  }

  /** The normalised pack (tests/test_senml.py:93-123). */
  lemma PackNormalized()
    ensures M.BaseParsable(Pack[0]) && D.RecordsParsable(Pack)
    ensures D.Normalizable(D.FromJson(Pack)) && D.ToNormalizedJson(D.FromJson(Pack)) == Absolute
  {
    PackParses();
    var d := D.FromJson(Pack);
    forall i | 0 <= i < 4 ensures M.Resolvable(d.measurements[i], d.base.value) {
      NormalizedAt(i);
    }
    var r := D.ToNormalizedJson(d);
    forall i | 0 <= i < 4 ensures r[i] == Absolute[i] {
      NormalizedAt(i);
    }
  }

  /**
   * A document whose base has an isotime does not survive to_json followed
   * by from_json: the isotime is lost.
   */
  lemma BaseIsotimeCounterexample()
    ensures var d := D.Document([M.Unset], Some(M.Unset.(isotime := Some("2024-01-01T00:00:00Z"))));
      && D.Emittable(d.base)
      && var js := D.ToJson(d);
      && |js| > 0 && M.BaseParsable(js[0]) && D.RecordsParsable(js)
      && D.FromJson(js) != d
  {
    var d := D.Document([M.Unset], Some(M.Unset.(isotime := Some("2024-01-01T00:00:00Z"))));
    D.BaseIsotimeLost(d);
  }
}
