/** How the output of `generate_cities_v1.py` fares under the contract of
    `validate_cities_v1.py`: the generator never writes coordinates, which the
    contract requires, so every record it writes fails the check. */
module Consistency {
  import opened Optional
  import G = GenerateCities
  import V = ValidateCities

  /** The keys written only when their value is not empty. */
  const OptionalKeys: set<string> := {"countryName", "iso3", "admin1Code", "admin1Name", "continent"}

  /** The value of an optional key of a record. */
  function OptionalValue(rec: G.CityRecord, key: string): Option<string> {
    if key == "countryName" then rec.countryName
    else if key == "iso3" then rec.iso3
    else if key == "admin1Code" then rec.admin1Code
    else if key == "admin1Name" then rec.admin1Name
    else if key == "continent" then rec.continent
    else None
  }

  /** The JSON object `build_asset` writes for a record: the seven keys every
      record has, and each optional key that has a value. */
  function RecordJson(rec: G.CityRecord): (fields: V.Row)
    ensures "lat" !in fields && "lon" !in fields
    ensures V.Get(fields, "defaultUnitSystem") == Some(V.JString(rec.defaultUnitSystem))
    ensures V.Get(fields, "defaultUse24h") == Some(V.JBool(rec.defaultUse24h))
  {
    RequiredJson(rec) + OptionalJson(rec)
  }

  /** The seven keys every record has. */
  function RequiredJson(rec: G.CityRecord): (fields: V.Row)
    ensures "id" in fields && fields["id"] == V.JString(rec.id)
    ensures "cityName" in fields && fields["cityName"] == V.JString(rec.cityName)
    ensures "countryCode" in fields && fields["countryCode"] == V.JString(rec.countryCode)
    ensures "timeZoneId" in fields && fields["timeZoneId"] == V.JString(rec.timeZoneId)
    ensures "currencyCode" in fields && fields["currencyCode"] == V.JString(rec.currencyCode)
    ensures "defaultUnitSystem" in fields && fields["defaultUnitSystem"] == V.JString(rec.defaultUnitSystem)
    ensures "defaultUse24h" in fields && fields["defaultUse24h"] == V.JBool(rec.defaultUse24h)
  {
    map["id" := V.JString(rec.id),
        "cityName" := V.JString(rec.cityName),
        "countryCode" := V.JString(rec.countryCode),
        "timeZoneId" := V.JString(rec.timeZoneId),
        "currencyCode" := V.JString(rec.currencyCode),
        "defaultUnitSystem" := V.JString(rec.defaultUnitSystem),
        "defaultUse24h" := V.JBool(rec.defaultUse24h)]
  }

  /** The optional keys that have a value. */
  function OptionalJson(rec: G.CityRecord): V.Row {
    map k | k in OptionalKeys && OptionalValue(rec, k).Some? :: V.JString(OptionalValue(rec, k).value)
  }

  /** A key every record has keeps its value in the written object. */
  lemma RequiredAt(rec: G.CityRecord, key: string)
    requires key in RequiredJson(rec)
    ensures key in RecordJson(rec) && RecordJson(rec)[key] == RequiredJson(rec)[key]
  {
    assert key !in OptionalKeys;
  }

  /** An optional key is in the written object exactly when it has a value. */
  lemma OptionalAt(rec: G.CityRecord, key: string)
    requires key in OptionalKeys
    ensures key in RecordJson(rec) <==> OptionalValue(rec, key).Some?
    ensures key in RecordJson(rec) ==> RecordJson(rec)[key] == V.JString(OptionalValue(rec, key).value)
  {
    assert key !in RequiredJson(rec);
  }

  /** The string under `key`, if the key is there with a string. */
  function Text(fields: V.Row, key: string): Option<string> {
    if key in fields && fields[key].JString? then Some(fields[key].s) else None
  }

  /** An optional key read back: absent means no value. */
  function OptionalText(fields: V.Row, key: string): Option<Option<string>> {
    if key !in fields then Some(None)
    else if fields[key].JString? then Some(Some(fields[key].s))
    else None
  }

  /** A written object read back as a record. */
  function ReadRecord(fields: V.Row): Option<G.CityRecord> {
    var id := Text(fields, "id");
    var name := Text(fields, "cityName");
    var cc := Text(fields, "countryCode");
    var tz := Text(fields, "timeZoneId");
    var cur := Text(fields, "currencyCode");
    var unit := Text(fields, "defaultUnitSystem");
    var countryName := OptionalText(fields, "countryName");
    var iso3 := OptionalText(fields, "iso3");
    var admin1Code := OptionalText(fields, "admin1Code");
    var admin1Name := OptionalText(fields, "admin1Name");
    var continent := OptionalText(fields, "continent");
    if && id.Some? && name.Some? && cc.Some? && tz.Some? && cur.Some? && unit.Some?
       && "defaultUse24h" in fields && fields["defaultUse24h"].JBool?
       && countryName.Some? && iso3.Some? && admin1Code.Some? && admin1Name.Some? && continent.Some?
    then
      Some(G.CityRecord(id.value, name.value, cc.value, tz.value, cur.value, unit.value,
                        fields["defaultUse24h"].b, countryName.value, iso3.value,
                        admin1Code.value, admin1Name.value, continent.value))
    else None
  }

  /** The seven keys every record has read back as written. */
  lemma RequiredKeysRead(rec: G.CityRecord)
    ensures var f := RecordJson(rec);
      && Text(f, "id") == Some(rec.id)
      && Text(f, "cityName") == Some(rec.cityName)
      && Text(f, "countryCode") == Some(rec.countryCode)
      && Text(f, "timeZoneId") == Some(rec.timeZoneId)
      && Text(f, "currencyCode") == Some(rec.currencyCode)
      && Text(f, "defaultUnitSystem") == Some(rec.defaultUnitSystem)
      && "defaultUse24h" in f && f["defaultUse24h"] == V.JBool(rec.defaultUse24h)
  {
    NamesRead(rec);
    SettingsRead(rec);
  }

  lemma NamesRead(rec: G.CityRecord)
    ensures var f := RecordJson(rec);
      && Text(f, "id") == Some(rec.id)
      && Text(f, "cityName") == Some(rec.cityName)
      && Text(f, "countryCode") == Some(rec.countryCode)
  {
    RequiredAt(rec, "id");
    RequiredAt(rec, "cityName");
    RequiredAt(rec, "countryCode");
  }

  lemma SettingsRead(rec: G.CityRecord)
    ensures var f := RecordJson(rec);
      && Text(f, "timeZoneId") == Some(rec.timeZoneId)
      && Text(f, "currencyCode") == Some(rec.currencyCode)
      && Text(f, "defaultUnitSystem") == Some(rec.defaultUnitSystem)
      && "defaultUse24h" in f && f["defaultUse24h"] == V.JBool(rec.defaultUse24h)
  {
    RequiredAt(rec, "timeZoneId");
    RequiredAt(rec, "currencyCode");
    RequiredAt(rec, "defaultUnitSystem");
    RequiredAt(rec, "defaultUse24h");
  }

  /** The optional keys read back as written: absent exactly when empty-handed. */
  lemma OptionalKeysRead(rec: G.CityRecord)
    ensures var f := RecordJson(rec);
      && OptionalText(f, "countryName") == Some(rec.countryName)
      && OptionalText(f, "iso3") == Some(rec.iso3)
      && OptionalText(f, "admin1Code") == Some(rec.admin1Code)
      && OptionalText(f, "admin1Name") == Some(rec.admin1Name)
      && OptionalText(f, "continent") == Some(rec.continent)
  {
    CountryKeysRead(rec);
    AdminKeysRead(rec);
  }

  lemma CountryKeysRead(rec: G.CityRecord)
    ensures var f := RecordJson(rec);
      && OptionalText(f, "countryName") == Some(rec.countryName)
      && OptionalText(f, "iso3") == Some(rec.iso3)
      && OptionalText(f, "continent") == Some(rec.continent)
  {
    OptionalAt(rec, "countryName");
    OptionalAt(rec, "iso3");
    OptionalAt(rec, "continent");
  }

  lemma AdminKeysRead(rec: G.CityRecord)
    ensures var f := RecordJson(rec);
      && OptionalText(f, "admin1Code") == Some(rec.admin1Code)
      && OptionalText(f, "admin1Name") == Some(rec.admin1Name)
  {
    OptionalAt(rec, "admin1Code");
    OptionalAt(rec, "admin1Name");
  }

  /** Writing a record loses nothing: reading the object back gives the record. */
  lemma RecordJsonRoundTrip(rec: G.CityRecord)
    ensures ReadRecord(RecordJson(rec)) == Some(rec)
  {
    RequiredKeysRead(rec);
    OptionalKeysRead(rec);
  }

  /** A written record always fails the contract: it has neither `lat` nor `lon`. */
  lemma RecordFailsContract(rec: G.CityRecord, zones: set<string>)
    ensures !V.RowValid(RecordJson(rec), zones)
    ensures V.Missing("lat") in V.RowFailures(RecordJson(rec), zones)
    ensures V.Missing("lon") in V.RowFailures(RecordJson(rec), zones)
  {
    V.MissingCoordinateFails(RecordJson(rec), zones);
  }

  /** The defaults the generator writes pass the enumeration and boolean checks. */
  lemma DefaultsPassContract(rec: G.CityRecord, zones: set<string>)
    requires rec.defaultUnitSystem == G.DefaultUnitSystem(rec.countryCode)
    ensures V.BadUnitSystem !in V.RowFailures(RecordJson(rec), zones)
    ensures V.BadUse24h !in V.RowFailures(RecordJson(rec), zones)
  {
    UnitSystemPasses(rec, zones);
    Use24hPasses(rec, zones);
  }

  lemma UnitSystemPasses(rec: G.CityRecord, zones: set<string>)
    requires rec.defaultUnitSystem == G.DefaultUnitSystem(rec.countryCode)
    ensures V.BadUnitSystem !in V.RowFailures(RecordJson(rec), zones)
  {
    var fields := RecordJson(rec);
    assert V.UnitSystemOk(V.Get(fields, "defaultUnitSystem"));
    V.UnitSystemPasses(fields, zones);
  }

  lemma Use24hPasses(rec: G.CityRecord, zones: set<string>)
    ensures V.BadUse24h !in V.RowFailures(RecordJson(rec), zones)
  {
    var fields := RecordJson(rec);
    assert V.Use24hOk(V.Get(fields, "defaultUse24h"));
    V.Use24hPasses(fields, zones);
  }

  /** The JSON array written for a list of records. */
  function AssetJson(records: seq<G.CityRecord>): (j: V.Json)
    ensures j.JArray? && |j.items| == |records|
    ensures forall i :: 0 <= i < |records| ==> j.items[i] == V.JObject(RecordJson(records[i]))
  {
    V.JArray(seq(|records|, i requires 0 <= i < |records| => V.JObject(RecordJson(records[i]))))
  }

  /** Checking any non-empty written list fails, and the first problem shown
      is the first record's missing coordinates. */
  lemma AssetFailsContract(records: seq<G.CityRecord>, zones: set<string>)
    requires |records| > 0
    ensures V.Validate(AssetJson(records), zones).Failed?
    ensures var shown := V.Validate(AssetJson(records), zones).shown;
      && shown[0].BadRow? && shown[0].error.index == 0
      && V.Missing("lat") in shown[0].error.failures && V.Missing("lon") in shown[0].error.failures
  {
    FirstRecordProblem(records, zones);
    RecordFailsContract(records[0], zones);
    V.FirstShown(AssetJson(records), zones);
  }

  /** The first written record is reported with all its failures. */
  lemma FirstRecordProblem(records: seq<G.CityRecord>, zones: set<string>)
    requires |records| > 0
    ensures var zeroRow := RecordJson(records[0]);
      V.ItemProblem(AssetJson(records).items[0], 0, zones)
        == Some(V.BadRow(V.RowError(0, V.Get(zeroRow, "id"), V.RowFailures(zeroRow, zones))))
  {
    var zeroRow := RecordJson(records[0]);
    var fs := V.RowFailures(zeroRow, zones);
    assert fs != [] by {
      RecordFailsContract(records[0], zones);
      assert V.Missing("lat") in fs;
    }
    V.ObjectProblem(AssetJson(records).items[0], zeroRow, 0, zones);
  }

  /** `build_asset`'s output never passes the contract check. */
  lemma BuildAssetFailsContract(countryLines: seq<string>, admin1Lines: seq<string>,
                                lines15: seq<string>, lines1000: seq<string>, zones: set<string>)
    ensures V.Validate(AssetJson(G.BuildAsset(countryLines, admin1Lines, lines15, lines1000).records), zones).Failed?
  {
    AssetFailsContract(G.BuildAsset(countryLines, admin1Lines, lines15, lines1000).records, zones);
  }

  /** No record of `build_asset`'s output fails the enumeration or the boolean check. */
  lemma BuildAssetDefaultsPass(countryLines: seq<string>, admin1Lines: seq<string>,
                               lines15: seq<string>, lines1000: seq<string>, zones: set<string>)
    ensures var recs := G.BuildAsset(countryLines, admin1Lines, lines15, lines1000).records;
      forall i :: 0 <= i < |recs| ==>
        && V.BadUnitSystem !in V.RowFailures(RecordJson(recs[i]), zones)
        && V.BadUse24h !in V.RowFailures(RecordJson(recs[i]), zones)
  {
    var recs := G.BuildAsset(countryLines, admin1Lines, lines15, lines1000).records;
    G.BuildAssetDefaults(countryLines, admin1Lines, lines15, lines1000);
    forall i | 0 <= i < |recs|
      ensures V.BadUnitSystem !in V.RowFailures(RecordJson(recs[i]), zones)
      ensures V.BadUse24h !in V.RowFailures(RecordJson(recs[i]), zones)
    {
      DefaultsPassContract(recs[i], zones);
    }
  }
}
