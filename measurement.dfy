/**
 * One SenML record (senml/senml.py, class SenMLMeasurement): six optional
 * fields, the two parsers for the base keys and the record keys, the
 * serialiser, and the merge of a record with its base.
 */
module SenMLMeasurement {
  import opened Wrappers
  import opened JsonTree

  /**
   * The four kinds of SenML value. Text and Raw carry the same string and
   * differ only in the key they are written under: Text is the unicode
   * string read from "vs", Raw the byte string read from "vd".
   */
  datatype Value = Num(num: real) | Bool(flag: bool) | Text(text: string) | Raw(raw: string)

  datatype Measurement = Measurement(
    name: Option<string>,
    time: Option<real>,
    isotime: Option<string>,
    unit: Option<string>,
    value: Option<Value>,
    sum: Option<real>)

  /** The measurement with every field unset. */
  const Unset: Measurement := Measurement(None, None, None, None, None, None)

  /** The keys base_from_json reads. */
  const BaseKeys: set<string> := {"bn", "bt", "biso8601", "bu", "bv"}

  /** The keys from_json reads. */
  const RecordKeys: set<string> := {"n", "t", "iso8601", "u", "v", "s", "vs", "vb", "vd"}

  /** The four value keys, of which a serialised record carries at most one. */
  const ValueKeys: set<string> := {"v", "vs", "vb", "vd"}

  /** The key a value of each kind is written under. */
  function ValueKey(v: Value): string {
    match v
    case Bool(_) => "vb"
    case Raw(_) => "vd"
    case Text(_) => "vs"
    case Num(_) => "v"
  }

  // ---------------------------------------------------------------------
  // Parsing

  predicate StrOrNull(data: Object, key: string) {
    key in data ==> data[key].JStr? || data[key].JNull?
  }

  predicate NumOrNull(data: Object, key: string) {
    key in data ==> data[key].JNum? || data[key].JNull?
  }

  function StrField(data: Object, key: string): Option<string>
    requires StrOrNull(data, key)
  {
    match Get(data, key)
    case Some(j) => Some(j.str)
    case None => None
  }

  function NumField(data: Object, key: string): Option<real>
    requires NumOrNull(data, key)
  {
    match Get(data, key)
    case Some(j) => Some(j.num)
    case None => None
  }

  /** A value stored without coercion ("v", "bv"): JSON strings decode to unicode text. */
  function ScalarValue(j: Json): Option<Value> {
    match j
    case JNull => None
    case JNum(r) => Some(Num(r))
    case JBool(b) => Some(Bool(b))
    case JStr(s) => Some(Text(s))
  }

  /** The base keys carry the JSON types the model gives their fields. */
  predicate BaseParsable(data: Object) {
    StrOrNull(data, "bn") && NumOrNull(data, "bt") && StrOrNull(data, "biso8601") && StrOrNull(data, "bu")
  }

  /**
   * The record keys carry the JSON types the model gives their fields; the
   * string fallback key that is actually consulted holds a string.
   */
  predicate RecordParsable(data: Object) {
    && StrOrNull(data, "n") && NumOrNull(data, "t") && StrOrNull(data, "iso8601")
    && StrOrNull(data, "u") && NumOrNull(data, "s")
    && (Get(data, "v").None? ==>
          if "vs" in data then data["vs"].JStr?
          else "vb" !in data && "vd" in data ==> data["vd"].JStr?)
  }

  /** base_from_json: the base fields, from the "b"-prefixed keys; sum is never set. */
  function BaseFromJson(data: Object): (m: Measurement)
    requires BaseParsable(data)
    ensures m.sum == None
    ensures m.name.Some? <==> Get(data, "bn").Some?
    ensures m.time.Some? <==> Get(data, "bt").Some?
    ensures m.isotime.Some? <==> Get(data, "biso8601").Some?
    ensures m.unit.Some? <==> Get(data, "bu").Some?
    ensures m.value.Some? <==> Get(data, "bv").Some?
  {
    Measurement(
      StrField(data, "bn"), NumField(data, "bt"), StrField(data, "biso8601"),
      StrField(data, "bu"), ScalarValue(if "bv" in data then data["bv"] else JNull), None)
  }

  /** The value when "v" is unset: "vs", then "vb", then "vd". */
  function FallbackValue(data: Object): Option<Value>
    requires "vs" in data ==> data["vs"].JStr?
    requires "vs" !in data && "vb" !in data && "vd" in data ==> data["vd"].JStr?
  {
    if "vs" in data then Some(Text(data["vs"].str))
    else if "vb" in data then Some(Bool(Truthy(data["vb"])))
    else if "vd" in data then Some(Raw(data["vd"].str))
    else None
  }

  /** from_json: a record, from the unprefixed keys. */
  function FromJson(data: Object): (m: Measurement)
    requires RecordParsable(data)
    ensures m.name.Some? <==> Get(data, "n").Some?
    ensures m.time.Some? <==> Get(data, "t").Some?
    ensures m.isotime.Some? <==> Get(data, "iso8601").Some?
    ensures m.unit.Some? <==> Get(data, "u").Some?
    ensures m.sum.Some? <==> Get(data, "s").Some?
    ensures m.value.Some? <==> Get(data, "v").Some? || "vs" in data || "vb" in data || "vd" in data
  {
    var primary := ScalarValue(if "v" in data then data["v"] else JNull);
    Measurement(
      StrField(data, "n"), NumField(data, "t"), StrField(data, "iso8601"),
      StrField(data, "u"), if primary.Some? then primary else FallbackValue(data),
      NumField(data, "s"))
  }

  /** The value priority of from_json: "v" over "vs" over "vb" over "vd". */
  lemma ValuePriority(data: Object)
    requires RecordParsable(data)
    ensures Get(data, "v").Some? ==> FromJson(data).value == ScalarValue(data["v"])
    ensures Get(data, "v").None? && "vs" in data ==> FromJson(data).value == Some(Text(data["vs"].str))
    ensures Get(data, "v").None? && "vs" !in data && "vb" in data ==>
              FromJson(data).value == Some(Bool(Truthy(data["vb"])))
    ensures Get(data, "v").None? && "vs" !in data && "vb" !in data && "vd" in data ==>
              FromJson(data).value == Some(Raw(data["vd"].str))
    ensures Get(data, "v").None? && "vs" !in data && "vb" !in data && "vd" !in data ==>
              FromJson(data).value == None
  {
  }

  /** from_json reads the record keys only: objects that agree on them parse alike. */
  lemma FromJsonReadsRecordKeys(d1: Object, d2: Object)
    requires AgreeOn(d1, d2, RecordKeys)
    requires RecordParsable(d1)
    ensures RecordParsable(d2) && FromJson(d2) == FromJson(d1)
  {
    assert "n" in RecordKeys && "t" in RecordKeys && "iso8601" in RecordKeys && "u" in RecordKeys;
    assert "v" in RecordKeys && "s" in RecordKeys && "vs" in RecordKeys && "vb" in RecordKeys;
    assert "vd" in RecordKeys;
  }

  /** base_from_json reads the base keys only: objects that agree on them parse alike. */
  lemma BaseFromJsonReadsBaseKeys(d1: Object, d2: Object)
    requires AgreeOn(d1, d2, BaseKeys)
    requires BaseParsable(d1)
    ensures BaseParsable(d2) && BaseFromJson(d2) == BaseFromJson(d1)
  {
    assert "bn" in BaseKeys && "bt" in BaseKeys && "biso8601" in BaseKeys;
    assert "bu" in BaseKeys && "bv" in BaseKeys;
  }

  /**
   * The two parsers share no key, so in the first element of a document the
   * base fields and the record fields are independent: replacing any base
   * key leaves the record unchanged and replacing any record key leaves the
   * base unchanged.
   */
  lemma ParsersIndependent(data: Object, extra: Object)
    requires RecordParsable(data) && BaseParsable(data)
    ensures BaseKeys !! RecordKeys
    ensures extra.Keys <= BaseKeys ==>
              RecordParsable(data + extra) && FromJson(data + extra) == FromJson(data)
    ensures extra.Keys <= RecordKeys ==>
              BaseParsable(data + extra) && BaseFromJson(data + extra) == BaseFromJson(data)
  {
    if extra.Keys <= BaseKeys {
      forall k | k in RecordKeys
        ensures (k in data <==> k in data + extra) && (k in data ==> data[k] == (data + extra)[k])
      {
        assert k !in extra;
      }
      FromJsonReadsRecordKeys(data, data + extra);
    }
    if extra.Keys <= RecordKeys {
      forall k | k in BaseKeys
        ensures (k in data <==> k in data + extra) && (k in data ==> data[k] == (data + extra)[k])
      {
        assert k !in RecordKeys;
      }
      BaseFromJsonReadsBaseKeys(data, data + extra);
    }
  }

  // ---------------------------------------------------------------------
  // Serialising

  /** The JSON form of a value, under the key ValueKey gives it. */
  function ValueJson(v: Value): Json {
    match v
    case Bool(b) => JBool(b)
    case Raw(s) => JStr(s)
    case Text(s) => JStr(s)
    case Num(r) => JNum(r)
  }

  /** What a key of a serialised record holds: the field that key stands for, if set. */
  function Entry(m: Measurement, key: string): Option<Json> {
    if key == "n" then (if m.name.Some? then Some(JStr(m.name.value)) else None)
    else if key == "t" then (if m.time.Some? then Some(JNum(m.time.value)) else None)
    else if key == "iso8601" then (if m.isotime.Some? then Some(JStr(m.isotime.value)) else None)
    else if key == "u" then (if m.unit.Some? then Some(JStr(m.unit.value)) else None)
    else if key == "s" then (if m.sum.Some? then Some(JNum(m.sum.value)) else None)
    else if m.value.Some? && key == ValueKey(m.value.value) then Some(ValueJson(m.value.value))
    else None
  }

  /** The serialised record restricted to some keys. */
  function EntriesOn(m: Measurement, keys: set<string>): Object {
    map k | k in keys && Entry(m, k).Some? :: Entry(m, k).value
  }

  /** Adding one key to the restriction inserts that key when its field is set. */
  lemma EntriesOnInsert(m: Measurement, keys: set<string>, key: string, keys': set<string>)
    requires key !in keys && keys' == keys + {key}
    ensures EntriesOn(m, keys') ==
              if Entry(m, key).Some? then EntriesOn(m, keys)[key := Entry(m, key).value]
              else EntriesOn(m, keys)
  {
  }

  /** to_json: the serialised record, one key per set field. */
  function ToJson(m: Measurement): Object {
    EntriesOn(m, RecordKeys)
  }

  /**
   * The keys of to_json: record keys only, one key per set field and, when
   * a value is set, exactly the one value key of its kind.
   */
  lemma ToJsonKeys(m: Measurement)
    ensures ToJson(m).Keys <= RecordKeys
    ensures "n" in ToJson(m) <==> m.name.Some?
    ensures "t" in ToJson(m) <==> m.time.Some?
    ensures "iso8601" in ToJson(m) <==> m.isotime.Some?
    ensures "u" in ToJson(m) <==> m.unit.Some?
    ensures "s" in ToJson(m) <==> m.sum.Some?
    ensures forall k :: k in ValueKeys ==> (k in ToJson(m) <==> m.value.Some? && k == ValueKey(m.value.value))
  {
    forall k | k in ValueKeys ensures k in ToJson(m) <==> m.value.Some? && k == ValueKey(m.value.value) {
      assert k in RecordKeys;
    }
  }

  /** to_json as the source writes it: one conditional insertion after another. */
  method BuildJson(m: Measurement) returns (ret: Object)
    ensures ret == ToJson(m)
  {
    ghost var done: set<string> := {};
    ret := map[];
    assert ret == EntriesOn(m, done);
    if m.name.Some? {
      ret := ret["n" := JStr(m.name.value)];
    }
    EntriesOnInsert(m, done, "n", done + {"n"});
    done := done + {"n"};
    if m.time.Some? {
      ret := ret["t" := JNum(m.time.value)];
    }
    EntriesOnInsert(m, done, "t", done + {"t"});
    done := done + {"t"};
    if m.isotime.Some? {
      ret := ret["iso8601" := JStr(m.isotime.value)];
    }
    EntriesOnInsert(m, done, "iso8601", done + {"iso8601"});
    done := done + {"iso8601"};
    if m.unit.Some? {
      ret := ret["u" := JStr(m.unit.value)];
    }
    EntriesOnInsert(m, done, "u", done + {"u"});
    done := done + {"u"};
    if m.sum.Some? {
      ret := ret["s" := JNum(m.sum.value)];
    }
    EntriesOnInsert(m, done, "s", done + {"s"});
    done := done + {"s"};
    match m.value {
      case Some(Bool(b)) => ret := ret["vb" := JBool(b)];
      case Some(Raw(s)) => ret := ret["vd" := JStr(s)];
      case Some(Text(s)) => ret := ret["vs" := JStr(s)];
      case Some(Num(r)) => ret := ret["v" := JNum(r)];
      case None =>
    }
    ValueEntries(m, done, RecordKeys);
  }

  /** Adding the four value keys at once inserts the one key of the value's kind. */
  lemma ValueEntries(m: Measurement, keys: set<string>, keys': set<string>)
    requires keys !! ValueKeys && keys' == keys + ValueKeys
    ensures EntriesOn(m, keys') ==
              if m.value.Some? then EntriesOn(m, keys)[ValueKey(m.value.value) := ValueJson(m.value.value)]
              else EntriesOn(m, keys)
  {
    EntriesOnInsert(m, keys, "v", keys + {"v"});
    EntriesOnInsert(m, keys + {"v"}, "vs", keys + {"v", "vs"});
    EntriesOnInsert(m, keys + {"v", "vs"}, "vb", keys + {"v", "vs", "vb"});
    EntriesOnInsert(m, keys + {"v", "vs", "vb"}, "vd", keys');
  }

  /** A serialised record parses as a record. */
  lemma ToJsonParsable(m: Measurement)
    ensures RecordParsable(ToJson(m))
  {
  }

  /** Parsing a serialised measurement gives the measurement back, for every measurement. */
  lemma FromJsonToJson(m: Measurement)
    ensures RecordParsable(ToJson(m)) && FromJson(ToJson(m)) == m
  {
  }

  /**
   * A record as to_json writes it: record keys only, at most one value key,
   * and every key holding the JSON type that key is written with.
   */
  predicate WellFormedRecord(d: Object) {
    && d.Keys <= RecordKeys
    && ("n" in d ==> d["n"].JStr?) && ("t" in d ==> d["t"].JNum?)
    && ("iso8601" in d ==> d["iso8601"].JStr?) && ("u" in d ==> d["u"].JStr?)
    && ("s" in d ==> d["s"].JNum?)
    && ("v" in d ==> d["v"].JNum?) && ("vs" in d ==> d["vs"].JStr?)
    && ("vb" in d ==> d["vb"].JBool?) && ("vd" in d ==> d["vd"].JStr?)
    && ("v" in d ==> "vs" !in d && "vb" !in d && "vd" !in d)
    && ("vs" in d ==> "vb" !in d && "vd" !in d)
    && ("vb" in d ==> "vd" !in d)
  }

  /** In a parsed well-formed record, each record key holds what the input held there. */
  lemma EntryOfParsed(d: Object, k: string)
    requires WellFormedRecord(d) && k in RecordKeys
    ensures RecordParsable(d)
    ensures Entry(FromJson(d), k) == if k in d then Some(d[k]) else None
  {
    var m := FromJson(d);
    if k in ValueKeys {
      if "v" in d {
        assert m.value == Some(Num(d["v"].num));
      } else if "vs" in d {
        assert m.value == Some(Text(d["vs"].str));
      } else if "vb" in d {
        assert m.value == Some(Bool(d["vb"].flag));
      } else if "vd" in d {
        assert m.value == Some(Raw(d["vd"].str));
      } else {
        assert m.value == None;
      }
    }
  }

  /** Serialising a parsed well-formed record gives the record back. */
  lemma ToJsonFromJson(d: Object)
    requires WellFormedRecord(d)
    ensures RecordParsable(d) && ToJson(FromJson(d)) == d
  {
    var r := ToJson(FromJson(d));
    forall k | k in RecordKeys
      ensures (k in r <==> k in d) && (k in d ==> r[k] == d[k])
    {
      EntryOfParsed(d, k);
    }
  }

  // ---------------------------------------------------------------------
  // Merging with a base

  /** Python's `own or fallback` on an optional string: unset and "" both fall back. */
  function Override(own: Option<string>, fallback: Option<string>): Option<string> {
    if own.Some? && own.value != "" then own else fallback
  }

  /**
   * The base value can take part in `(base.value or 0.0) + x`: it is unset,
   * numeric, boolean (a Python bool is an int) or an empty string (falsy).
   */
  predicate Additive(v: Option<Value>) {
    match v
    case None => true
    case Some(Num(_)) => true
    case Some(Bool(_)) => true
    case Some(Text(s)) => s == ""
    case Some(Raw(s)) => s == ""
  }

  /** The number `(v or 0.0)` contributes to the sum. */
  function Addend(v: Option<Value>): real
    requires Additive(v)
  {
    match v
    case Some(Num(r)) => r
    case Some(Bool(b)) => if b then 1.0 else 0.0
    case _ => 0.0
  }

  /** to_absolute does not fail: a numeric record value meets an additive base value. */
  predicate Resolvable(m: Measurement, base: Measurement) {
    m.value.Some? && m.value.value.Num? ==> Additive(base.value)
  }

  /**
   * to_absolute: the record merged with its base, following section 4.5.3
   * of RFC 8428 as the implementation reads it.
   */
  function ToAbsolute(m: Measurement, base: Measurement): (a: Measurement)
    requires Resolvable(m, base)
    ensures a.name == Some(base.name.GetOr("") + m.name.GetOr(""))
    ensures a.time == Some(base.time.GetOr(0.0) + m.time.GetOr(0.0))
    ensures a.unit == if m.unit.None? || m.unit == Some("") then base.unit else m.unit
    ensures a.isotime == if m.isotime.None? || m.isotime == Some("") then base.isotime else m.isotime
    ensures a.sum == m.sum
    ensures a.value.Some? <==> m.value.Some?
    ensures m.value.Some? && !m.value.value.Num? ==> a.value == m.value
    ensures m.value.Some? && m.value.value.Num? ==>
              a.value == Some(Num(Addend(base.value) + m.value.value.num))
  {
    var merged := match m.value
      case Some(Num(r)) => Some(Num(Addend(base.value) + r))
      case other => other;
    Measurement(
      Some(base.name.GetOr("") + m.name.GetOr("")),
      Some(base.time.GetOr(0.0) + m.time.GetOr(0.0)),
      Override(m.isotime, base.isotime),
      Override(m.unit, base.unit),
      merged,
      m.sum)
  }

  /** The base's sum is never read, and a boolean or text value ignores the base entirely. */
  lemma AbsoluteIgnoresBaseSumAndNonNumeric(m: Measurement, b1: Measurement, b2: Measurement)
    requires Resolvable(m, b1) && Resolvable(m, b2)
    requires b1.name == b2.name && b1.time == b2.time && b1.unit == b2.unit && b1.isotime == b2.isotime
    requires m.value.None? || !m.value.value.Num?
    ensures ToAbsolute(m, b1) == ToAbsolute(m, b2)
  {
  }

  /**
   * A base with nothing set changes nothing in a record that already has a
   * name and a time and whose unit and isotime are not the empty string.
   */
  lemma UnsetBaseNeutral(m: Measurement)
    requires m.name.Some? && m.time.Some?
    requires m.unit != Some("") && m.isotime != Some("")
    ensures Resolvable(m, Unset) && ToAbsolute(m, Unset) == m
  {
    assert "" + m.name.value == m.name.value;
  }

  /** A resolved record always carries a name key and a time key, and no base key. */
  lemma AbsoluteJsonSelfContained(m: Measurement, base: Measurement)
    requires Resolvable(m, base)
    ensures "n" in ToJson(ToAbsolute(m, base)) && "t" in ToJson(ToAbsolute(m, base))
    ensures ToJson(ToAbsolute(m, base)).Keys !! BaseKeys
  {
    var r := ToJson(ToAbsolute(m, base));
    ToJsonKeys(ToAbsolute(m, base));
    forall k | k in r ensures k !in BaseKeys {
      assert k in RecordKeys;
    }
  }
}
