/** `build_asset` of generate_cities_v1.py: the default settings of a
    country, the curated records, the merge of the two GeoNames dumps with
    the capitals they miss, and the records emitted for the merged rows. */
module GenerateCities {
  import opened Optional
  import opened PyText
  import opened Tables
  import opened Normalize
  import opened GeoNames
  import opened CapitalMatch

  /** Countries whose default unit system is imperial. */
  const ImperialCountries: set<string> := {"US", "LR", "MM"}

  /** Countries whose default clock is the 12-hour one. */
  const TwelveHourCountries: set<string> := {"US", "CA"}

  /** `_default_unit_system` */
  function DefaultUnitSystem(cc: string): (u: string)
    ensures u == "metric" || u == "imperial"
  {
    if Upper(cc) in ImperialCountries then "imperial" else "metric"
  }

  /** `_default_use_24h` */
  function DefaultUse24h(cc: string): (r: bool)
    ensures !r ==> |cc| == 2
    ensures Upper(cc) == "US" || Upper(cc) == "CA" ==> !r
  {
    Upper(cc) !in TwelveHourCountries
  }

  /** Both defaults look at the code case-insensitively. */
  lemma DefaultsIgnoreCase(cc: string)
    ensures DefaultUnitSystem(Lower(cc)) == DefaultUnitSystem(cc) == DefaultUnitSystem(Upper(cc))
    ensures DefaultUse24h(Lower(cc)) == DefaultUse24h(cc) == DefaultUse24h(Upper(cc))
  {
    UpperOfLower(cc);
    UpperOfUpper(cc);
  }

  /** The imperial default, letter by letter: a two-character code whose
      upper-cased letters spell US, LR or MM. */
  lemma ImperialIff(cc: string)
    ensures DefaultUnitSystem(cc) == "imperial" <==>
      |cc| == 2 && ((UpperChar(cc[0]) == 'U' && UpperChar(cc[1]) == 'S')
                 || (UpperChar(cc[0]) == 'L' && UpperChar(cc[1]) == 'R')
                 || (UpperChar(cc[0]) == 'M' && UpperChar(cc[1]) == 'M'))
  {
    var u := Upper(cc);
    if |cc| == 2 {
      assert u == [UpperChar(cc[0]), UpperChar(cc[1])];
    } else {
      assert |u| != 2;
      assert "US" != u && "LR" != u && "MM" != u;
    }
  }

  /** The 12-hour default, letter by letter: US or CA. */
  lemma TwelveHourIff(cc: string)
    ensures !DefaultUse24h(cc) <==>
      |cc| == 2 && ((UpperChar(cc[0]) == 'U' && UpperChar(cc[1]) == 'S')
                 || (UpperChar(cc[0]) == 'C' && UpperChar(cc[1]) == 'A'))
  {
    var u := Upper(cc);
    if |cc| == 2 {
      assert u == [UpperChar(cc[0]), UpperChar(cc[1])];
    } else {
      assert |u| != 2;
      assert "US" != u && "CA" != u;
    }
  }

  /** One record of the asset. The keys of the JSON object that are only
      written when their value is not empty are the `Option` fields. */
  datatype CityRecord = CityRecord(
    id: string,
    cityName: string,
    countryCode: string,
    timeZoneId: string,
    currencyCode: string,
    defaultUnitSystem: string,
    defaultUse24h: bool,
    countryName: Option<string>,
    iso3: Option<string>,
    admin1Code: Option<string>,
    admin1Name: Option<string>,
    continent: Option<string>)

  /** An optional key is left out rather than written empty. */
  predicate OmitsEmpty(rec: CityRecord) {
    && (rec.countryName.Some? ==> rec.countryName.value != "")
    && (rec.iso3.Some? ==> rec.iso3.value != "")
    && (rec.admin1Code.Some? ==> rec.admin1Code.value != "")
    && (rec.admin1Name.Some? ==> rec.admin1Name.value != "")
    && (rec.continent.Some? ==> rec.continent.value != "")
  }

  function UsCity(id: string, name: string, tz: string, admin1: string, admin1Name: string): CityRecord {
    CityRecord(id, name, "US", tz, "USD", "imperial", false,
               Some("United States"), Some("USA"), Some(admin1), Some(admin1Name), Some("NA"))
  }

  function CaCity(id: string, name: string, tz: string, admin1: string, admin1Name: string): CityRecord {
    CityRecord(id, name, "CA", tz, "CAD", "metric", false,
               Some("Canada"), Some("CAN"), Some(admin1), Some(admin1Name), Some("NA"))
  }

  function OtherCity(id: string, name: string, cc: string, tz: string, currency: string,
                     country: string, iso3: string, continent: string): CityRecord {
    CityRecord(id, name, cc, tz, currency, "metric", true,
               Some(country), Some(iso3), None, None, Some(continent))
  }

  /** The records seeded ahead of the GeoNames ones, in authored order. */
  function Curated(): (cs: seq<CityRecord>)
    ensures |cs| == 10
  {
    CuratedUs() + CuratedCa() + CuratedOther()
  }

  function CuratedUs(): seq<CityRecord> {
    [ UsCity("denver_us", "Denver", "America/Denver", "CO", "Colorado"),
      UsCity("new_york_us", "New York", "America/New_York", "NY", "New York"),
      UsCity("los_angeles_us", "Los Angeles", "America/Los_Angeles", "CA", "California"),
      UsCity("chicago_us", "Chicago", "America/Chicago", "IL", "Illinois"),
      UsCity("miami_us", "Miami", "America/New_York", "FL", "Florida") ]
  }

  function CuratedCa(): seq<CityRecord> {
    [ CaCity("toronto_ca", "Toronto", "America/Toronto", "ON", "Ontario"),
      CaCity("vancouver_ca", "Vancouver", "America/Vancouver", "BC", "British Columbia") ]
  }

  function CuratedOther(): seq<CityRecord> {
    [ OtherCity("london_gb", "London", "GB", "Europe/London", "GBP", "United Kingdom", "GBR", "EU"),
      OtherCity("lisbon_pt", "Lisbon", "PT", "Europe/Lisbon", "EUR", "Portugal", "PRT", "EU"),
      OtherCity("tokyo_jp", "Tokyo", "JP", "Asia/Tokyo", "JPY", "Japan", "JPN", "AS") ]
  }

  /** A seeded record agrees with the generator's defaults for its country,
      omits no key as empty, and has no `gn_` id. */
  predicate SeedConsistent(rec: CityRecord) {
    && rec.defaultUnitSystem == DefaultUnitSystem(rec.countryCode)
    && rec.defaultUse24h == DefaultUse24h(rec.countryCode)
    && OmitsEmpty(rec)
    && ParseGnId(rec.id).None?
  }

  /** The defaults of the countries of the curated records. */
  lemma CuratedCountryDefaults(cc: string)
    requires cc in {"US", "CA", "GB", "PT", "JP"}
    ensures DefaultUnitSystem(cc) == (if cc == "US" then "imperial" else "metric")
    ensures DefaultUse24h(cc) == (cc != "US" && cc != "CA")
  {
    ImperialIff(cc);
    TwelveHourIff(cc);
  }

  /** An id that does not start with 'g' is not a `gn_` id. */
  lemma NotGnId(id: string)
    requires |id| > 0 && id[0] != 'g'
    ensures ParseGnId(id).None?
  {
  }

  lemma UsCityConsistent(id: string, name: string, tz: string, admin1: string, admin1Name: string)
    requires |id| > 0 && id[0] != 'g' && admin1 != "" && admin1Name != ""
    ensures SeedConsistent(UsCity(id, name, tz, admin1, admin1Name))
  {
    CuratedCountryDefaults("US");
    NotGnId(id);
  }

  lemma CaCityConsistent(id: string, name: string, tz: string, admin1: string, admin1Name: string)
    requires |id| > 0 && id[0] != 'g' && admin1 != "" && admin1Name != ""
    ensures SeedConsistent(CaCity(id, name, tz, admin1, admin1Name))
  {
    CuratedCountryDefaults("CA");
    NotGnId(id);
  }

  lemma OtherCityConsistent(id: string, name: string, cc: string, tz: string, currency: string,
                            country: string, iso3: string, continent: string)
    requires |id| > 0 && id[0] != 'g' && country != "" && iso3 != "" && continent != ""
    requires cc in {"GB", "PT", "JP"}
    ensures SeedConsistent(OtherCity(id, name, cc, tz, currency, country, iso3, continent))
  {
    CuratedCountryDefaults(cc);
    NotGnId(id);
  }

  lemma CuratedUsConsistent()
    ensures forall i :: 0 <= i < |CuratedUs()| ==> SeedConsistent(CuratedUs()[i])
  {
    UsCityConsistent("denver_us", "Denver", "America/Denver", "CO", "Colorado");
    UsCityConsistent("new_york_us", "New York", "America/New_York", "NY", "New York");
    UsCityConsistent("los_angeles_us", "Los Angeles", "America/Los_Angeles", "CA", "California");
    UsCityConsistent("chicago_us", "Chicago", "America/Chicago", "IL", "Illinois");
    UsCityConsistent("miami_us", "Miami", "America/New_York", "FL", "Florida");
  }

  lemma CuratedCaConsistent()
    ensures forall i :: 0 <= i < |CuratedCa()| ==> SeedConsistent(CuratedCa()[i])
  {
    CaCityConsistent("toronto_ca", "Toronto", "America/Toronto", "ON", "Ontario");
    CaCityConsistent("vancouver_ca", "Vancouver", "America/Vancouver", "BC", "British Columbia");
  }

  lemma CuratedOtherConsistent()
    ensures forall i :: 0 <= i < |CuratedOther()| ==> SeedConsistent(CuratedOther()[i])
  {
    OtherCityConsistent("london_gb", "London", "GB", "Europe/London", "GBP", "United Kingdom", "GBR", "EU");
    OtherCityConsistent("lisbon_pt", "Lisbon", "PT", "Europe/Lisbon", "EUR", "Portugal", "PRT", "EU");
    OtherCityConsistent("tokyo_jp", "Tokyo", "JP", "Asia/Tokyo", "JPY", "Japan", "JPN", "AS");
  }

  /** Every curated record is consistent in the sense of `SeedConsistent`. */
  lemma CuratedConsistent()
    ensures forall i :: 0 <= i < |Curated()| ==> SeedConsistent(Curated()[i])
  {
    CuratedUsConsistent();
    CuratedCaConsistent();
    CuratedOtherConsistent();
  }

  /** Reads a geonameid back from a `gn_` id. */
  function ParseGnId(id: string): Option<int> {
    if StartsWith(id, "gn_") then ParseInt(id[3..]) else None
  }

  /** The id of a GeoNames record. */
  function GnId(geonameid: int): (id: string)
    ensures |id| > 3 && id[..3] == "gn_"
  {
    "gn_" + IntToString(geonameid)
  }

  /** A `gn_` id reads back as its geonameid. */
  lemma GnIdRoundTrip(geonameid: int)
    ensures ParseGnId(GnId(geonameid)) == Some(geonameid)
  {
    var id := GnId(geonameid);
    assert id[3..] == IntToString(geonameid);
    IntToStringRoundTrip(geonameid);
  }

  /** The admin1 table key of a row; rows without an admin1 code look up "". */
  function AdminKey(r: GeoRow): string {
    if r.admin1 != "" then r.country + "." + r.admin1 else ""
  }

  /** The record emitted for a merged row, filled from its country and its
      admin1 entry. */
  function GeoRecord(r: GeoRow, countries: map<string, Country>, admin1: map<string, string>): (rec: CityRecord)
    ensures rec.id == GnId(r.geonameid)
    ensures rec.cityName == r.name && rec.countryCode == r.country && rec.timeZoneId == r.tz
    ensures rec.defaultUnitSystem == DefaultUnitSystem(r.country) && rec.defaultUse24h == DefaultUse24h(r.country)
    ensures OmitsEmpty(rec)
    ensures rec.currencyCode != ""
    ensures rec.currencyCode != "USD" ==> r.country in countries && rec.currencyCode == countries[r.country].currency
    ensures (r.country !in countries || countries[r.country].currency == "") ==> rec.currencyCode == "USD"
    ensures r.country in countries && countries[r.country].currency != "" ==>
              rec.currencyCode == countries[r.country].currency
    ensures rec.countryName.Some? <==> r.country in countries && countries[r.country].name != ""
    ensures rec.countryName.Some? ==> rec.countryName.value == countries[r.country].name
    ensures rec.iso3.Some? <==> r.country in countries && countries[r.country].iso3 != ""
    ensures rec.iso3.Some? ==> rec.iso3.value == countries[r.country].iso3
    ensures rec.continent.Some? <==> r.country in countries && countries[r.country].continent != ""
    ensures rec.continent.Some? ==> rec.continent.value == countries[r.country].continent
    ensures rec.admin1Code.Some? <==> r.admin1 != ""
    ensures rec.admin1Code.Some? ==> rec.admin1Code.value == r.admin1
    ensures rec.admin1Name.Some? <==> AdminKey(r) in admin1 && admin1[AdminKey(r)] != ""
    ensures rec.admin1Name.Some? ==> rec.admin1Name.value == admin1[AdminKey(r)]
    ensures rec.admin1Name.Some? && rec.admin1Code.None? ==> "" in admin1
  {
    var c := if r.country in countries then Some(countries[r.country]) else None;
    var currency := if c.Some? && c.value.currency != "" then c.value.currency else "USD";
    var adminName := if AdminKey(r) in admin1 then admin1[AdminKey(r)] else "";
    CityRecord(
      id := GnId(r.geonameid),
      cityName := r.name,
      countryCode := r.country,
      timeZoneId := r.tz,
      currencyCode := currency,
      defaultUnitSystem := DefaultUnitSystem(r.country),
      defaultUse24h := DefaultUse24h(r.country),
      countryName := if c.Some? && c.value.name != "" then Some(c.value.name) else None,
      iso3 := if c.Some? && c.value.iso3 != "" then Some(c.value.iso3) else None,
      admin1Code := if r.admin1 != "" then Some(r.admin1) else None,
      admin1Name := if adminName != "" then Some(adminName) else None,
      continent := if c.Some? && c.value.continent != "" then Some(c.value.continent) else None)
  }

  /** The enrichment reads the country table only under the row's country
      code and the admin1 table only under the row's admin1 key: tables that
      agree there give the same record. */
  lemma GeoRecordLocal(r: GeoRow, countries1: map<string, Country>, countries2: map<string, Country>,
                       admin1a: map<string, string>, admin1b: map<string, string>)
    requires r.country in countries1 <==> r.country in countries2
    requires r.country in countries1 ==> countries1[r.country] == countries2[r.country]
    requires AdminKey(r) in admin1a <==> AdminKey(r) in admin1b
    requires AdminKey(r) in admin1a ==> admin1a[AdminKey(r)] == admin1b[AdminKey(r)]
    ensures GeoRecord(r, countries1, admin1a) == GeoRecord(r, countries2, admin1b)
  {
  }

  /** The entries `{r.geonameid: r for r in rows}` assigns. */
  function IdEntries(rows: seq<GeoRow>): (es: seq<Option<(int, GeoRow)>>)
    ensures |es| == |rows|
    ensures forall i :: 0 <= i < |rows| ==> es[i] == Some((rows[i].geonameid, rows[i]))
  {
    seq(|rows|, i requires 0 <= i < |rows| => Some((rows[i].geonameid, rows[i])))
  }

  /** The state of the capital loop: `by_id` with its keys in insertion
      order, and `missing_capitals`. */
  datatype Merge = Merge(byId: map<int, GeoRow>, keys: seq<int>, missing: seq<(string, string)>)

  /** The key list holds the keys of `byId`, and every row sits under its own id. */
  ghost predicate MergeWf(m: Merge) {
    && (forall k :: k in m.keys <==> k in m.byId)
    && (forall k :: k in m.byId ==> m.byId[k].geonameid == k)
  }

  /** The base set: every row of cities15000 under its id, the last one
      winning when two rows share an id. */
  function InitialMerge(rows: seq<GeoRow>): (m: Merge)
    ensures MergeWf(m) && m.missing == []
    ensures forall k :: k in m.byId <==> exists i :: 0 <= i < |rows| && rows[i].geonameid == k
    ensures forall k :: k in m.byId ==> m.byId[k] in rows
    ensures forall k :: k in m.byId ==>
              exists i :: 0 <= i < |rows| && rows[i] == m.byId[k]
                          && forall j :: i < j < |rows| ==> rows[j].geonameid != k
  {
    var es := IdEntries(rows);
    var byId := Assemble(es);
    forall k | k in byId
      ensures byId[k].geonameid == k && byId[k] in rows
      ensures exists i :: 0 <= i < |rows| && rows[i] == byId[k]
                          && forall j :: i < j < |rows| ==> rows[j].geonameid != k
    {
      var i := LastEntry(es, k).value;
      assert es[i] == Some((k, byId[k]));
      forall j | i < j < |rows| ensures rows[j].geonameid != k {
        assert !Defines(es[j], k);
      }
    }
    forall k | (exists i :: 0 <= i < |rows| && rows[i].geonameid == k)
      ensures k in byId
    {
      var i :| 0 <= i < |rows| && rows[i].geonameid == k;
      assert Defines(es[i], k);
    }
    Merge(byId, KeyOrder(es), [])
  }

  /** The row `_best_capital_match` finds for a country's capital in one dump. */
  function CapitalIn(rows: seq<GeoRow>, c: Country): (r: Option<GeoRow>)
    ensures r.Some? ==> r.value in rows && r.value.country == c.code2
  {
    BestCapitalMatch(rows, c.code2, VariantOrder(c.capital))
  }

  /** A country as the capital loop sees it: its code, its capital, and the
      capital's match in cities15000 and in cities1000. */
  datatype Lookup = Lookup(code: string, capital: string, in15: Option<GeoRow>, in1000: Option<GeoRow>)

  function LookUp(c: Country, rows15: seq<GeoRow>, rows1000: seq<GeoRow>): (l: Lookup)
    ensures l.in15.Some? ==> l.in15.value in rows15
  {
    Lookup(c.code2, c.capital, CapitalIn(rows15, c), CapitalIn(rows1000, c))
  }

  function LookUps(cs: seq<Country>, rows15: seq<GeoRow>, rows1000: seq<GeoRow>): (ls: seq<Lookup>)
    ensures |ls| == |cs|
    ensures forall i :: 0 <= i < |cs| ==> ls[i] == LookUp(cs[i], rows15, rows1000)
  {
    seq(|cs|, i requires 0 <= i < |cs| => LookUp(cs[i], rows15, rows1000))
  }

  /** The capital is looked up and found in neither dump. */
  predicate Unresolved(l: Lookup) {
    l.capital != "" && l.in15.None? && l.in1000.None?
  }

  /** The capital is missing from cities15000 and `r` is its row in cities1000. */
  predicate Pulled(l: Lookup, r: GeoRow) {
    l.capital != "" && l.in15.None? && l.in1000 == Some(r)
  }

  /** The row the loop settles on: the match in cities15000, else the one in cities1000. */
  function Found(l: Lookup): Option<GeoRow> {
    if l.capital == "" then None
    else if l.in15.Some? then l.in15
    else l.in1000
  }

  /** One turn of the capital loop: `setdefault` of a capital only
      cities1000 has, or a note that neither dump has it. */
  function CapitalStep(m: Merge, l: Lookup): (s: Merge)
    requires MergeWf(m)
    ensures MergeWf(s)
    ensures forall k :: k in m.byId ==> k in s.byId && s.byId[k] == m.byId[k]
    ensures forall k :: k in s.byId && k !in m.byId ==> Pulled(l, s.byId[k])
    ensures Found(l).Some? && (l.in15.Some? ==> l.in15.value.geonameid in m.byId) ==>
              Found(l).value.geonameid in s.byId
    ensures s.missing == m.missing + (if Unresolved(l) then [(l.code, l.capital)] else [])
  {
    if l.capital == "" || l.in15.Some? then m
    else match l.in1000
      case Some(r) =>
        if r.geonameid in m.byId then m
        else Merge(m.byId[r.geonameid := r], m.keys + [r.geonameid], m.missing)
      case None => Merge(m.byId, m.keys, m.missing + [(l.code, l.capital)])
  }

  /** The capital loop over the countries `ls`, from the state `m`. */
  function EnsureCapitals(m: Merge, ls: seq<Lookup>): (s: Merge)
    requires MergeWf(m)
    ensures MergeWf(s)
  {
    if |ls| == 0 then m else CapitalStep(EnsureCapitals(m, ls[..|ls| - 1]), ls[|ls| - 1])
  }

  /** `setdefault` never replaces an entry of `by_id`. */
  lemma {:induction false} EnsureCapitalsKeeps(m: Merge, ls: seq<Lookup>)
    requires MergeWf(m)
    ensures forall k :: k in m.byId ==> k in EnsureCapitals(m, ls).byId && EnsureCapitals(m, ls).byId[k] == m.byId[k]
  {
    if |ls| > 0 {
      EnsureCapitalsKeeps(m, ls[..|ls| - 1]);
    }
  }

  /** A key the loop adds is the id of a capital that only cities1000 has. */
  lemma {:induction false} EnsureCapitalsAdds(m: Merge, ls: seq<Lookup>)
    requires MergeWf(m)
    ensures var s := EnsureCapitals(m, ls);
      forall k :: k in s.byId && k !in m.byId ==> exists i :: 0 <= i < |ls| && Pulled(ls[i], s.byId[k])
  {
    if |ls| > 0 {
      var init := ls[..|ls| - 1];
      EnsureCapitalsAdds(m, init);
      EnsureCapitalsKeeps(EnsureCapitals(m, init), [ls[|ls| - 1]]);
      assert forall i :: 0 <= i < |init| ==> init[i] == ls[i];
    }
  }

  /** Every capital found in either dump is a key of `by_id` afterwards,
      provided the matches in cities15000 were keys before. */
  lemma {:induction false} EnsureCapitalsFinds(m: Merge, ls: seq<Lookup>)
    requires MergeWf(m)
    requires forall i :: 0 <= i < |ls| && ls[i].in15.Some? ==> ls[i].in15.value.geonameid in m.byId
    ensures forall i :: 0 <= i < |ls| && Found(ls[i]).Some? ==> Found(ls[i]).value.geonameid in EnsureCapitals(m, ls).byId
  {
    if |ls| > 0 {
      var init := ls[..|ls| - 1];
      assert forall i :: 0 <= i < |init| ==> init[i] == ls[i];
      EnsureCapitalsFinds(m, init);
      EnsureCapitalsKeeps(m, init);
    }
  }

  /** The countries recorded as missing are exactly those whose capital
      neither dump has, after the ones recorded before. */
  lemma {:induction false} EnsureCapitalsMissing(m: Merge, ls: seq<Lookup>)
    requires MergeWf(m)
    ensures var s := EnsureCapitals(m, ls);
      && |m.missing| <= |s.missing| && s.missing[..|m.missing|] == m.missing
      && forall p :: p in s.missing[|m.missing|..] <==>
           exists i :: 0 <= i < |ls| && Unresolved(ls[i]) && p == (ls[i].code, ls[i].capital)
  {
    var s := EnsureCapitals(m, ls);
    MissingAppended(m, ls);
    assert s.missing[..|m.missing|] == m.missing;
    assert s.missing[|m.missing|..] == UnresolvedOf(ls);
  }

  /** The capitals of the lookups that neither dump resolved, in order. */
  function UnresolvedOf(ls: seq<Lookup>): (ps: seq<(string, string)>)
    ensures forall p :: p in ps <==>
      exists i :: 0 <= i < |ls| && Unresolved(ls[i]) && p == (ls[i].code, ls[i].capital)
  {
    if |ls| == 0 then []
    else
      var init := ls[..|ls| - 1];
      var l := ls[|ls| - 1];
      assert forall i :: 0 <= i < |init| ==> init[i] == ls[i];
      UnresolvedOf(init) + (if Unresolved(l) then [(l.code, l.capital)] else [])
  }

  /** The loop appends the unresolved capitals to the missing list, in order. */
  lemma {:induction false} MissingAppended(m: Merge, ls: seq<Lookup>)
    requires MergeWf(m)
    ensures EnsureCapitals(m, ls).missing == m.missing + UnresolvedOf(ls)
  {
    if |ls| > 0 {
      MissingAppended(m, ls[..|ls| - 1]);
    }
  }

  /** `sorted(by_id.keys())`: each key once, in strictly ascending order. */
  function GeoIds(m: Merge): (ids: seq<int>)
    requires MergeWf(m)
    ensures StrictlyAscending(ids)
    ensures forall k :: k in ids <==> k in m.byId
  {
    SortedUnique(m.keys)
  }

  /** The GeoNames records, one per sorted key, each built from the row under its key. */
  function EmitGeo(m: Merge, countries: map<string, Country>, admin1: map<string, string>): (recs: seq<CityRecord>)
    requires MergeWf(m)
    ensures |recs| == |GeoIds(m)|
    ensures forall i :: 0 <= i < |recs| ==> recs[i] == GeoRecord(m.byId[GeoIds(m)[i]], countries, admin1)
    ensures forall i :: 0 <= i < |recs| ==> recs[i].id == GnId(GeoIds(m)[i])
  {
    var ids := GeoIds(m);
    seq(|ids|, i requires 0 <= i < |ids| => GeoRecord(m.byId[ids[i]], countries, admin1))
  }

  /** The merged `by_id` of a run. */
  function Merged(t: CountryTable, rows15: seq<GeoRow>, rows1000: seq<GeoRow>): (m: Merge)
    requires TableWf(t)
    ensures MergeWf(m)
  {
    EnsureCapitals(InitialMerge(rows15), LookUps(Items(t), rows15, rows1000))
  }

  /** The merge of a run, from the lines it reads. */
  function RunMerge(countryLines: seq<string>, lines15: seq<string>, lines1000: seq<string>): (m: Merge)
    ensures MergeWf(m)
  {
    Merged(ReadCountryInfo(countryLines), ParseCities(lines15), ParseCities(lines1000))
  }

  /** What a run writes and reports: the records, and the countries whose
      capital was not found. */
  datatype Asset = Asset(records: seq<CityRecord>, missingCapitals: seq<(string, string)>)

  /** The asset written for a merge: the curated records, then one record
      per sorted key of `by_id`. */
  function AssetOf(m: Merge, countries: map<string, Country>, admin1: map<string, string>): (a: Asset)
    requires MergeWf(m)
    ensures |a.records| == 10 + |GeoIds(m)| && a.records[..10] == Curated()
    ensures a.records[10..] == EmitGeo(m, countries, admin1)
    ensures a.missingCapitals == m.missing
  {
    var geo := EmitGeo(m, countries, admin1);
    var recs := Curated() + geo;
    assert recs[10..] == geo;
    Asset(recs, m.missing)
  }

  lemma AssetOfTail(m: Merge, countries: map<string, Country>, admin1: map<string, string>, i: nat)
    requires MergeWf(m)
    requires 10 <= i < |AssetOf(m, countries, admin1).records|
    ensures AssetOf(m, countries, admin1).records[i] == GeoRecord(m.byId[GeoIds(m)[i - 10]], countries, admin1)
    ensures AssetOf(m, countries, admin1).records[i].id == GnId(GeoIds(m)[i - 10])
  {
  }

  lemma AssetOfHead(m: Merge, countries: map<string, Country>, admin1: map<string, string>, i: nat)
    requires MergeWf(m)
    requires i < 10
    ensures AssetOf(m, countries, admin1).records[i] == Curated()[i]
    ensures ParseGnId(AssetOf(m, countries, admin1).records[i].id).None?
  {
    var a := AssetOf(m, countries, admin1);
    assert a.records[i] == a.records[..10][i];
    CuratedConsistent();
    assert SeedConsistent(Curated()[i]);
  }

  /** The record after the curated ones at position `i` is built from the
      row under the `i`-th sorted key, and has that key's `gn_` id. */
  lemma AssetOfRecords(m: Merge, countries: map<string, Country>, admin1: map<string, string>)
    requires MergeWf(m)
    ensures var a := AssetOf(m, countries, admin1);
      forall i :: 10 <= i < |a.records| ==>
        && a.records[i] == GeoRecord(m.byId[GeoIds(m)[i - 10]], countries, admin1)
        && a.records[i].id == GnId(GeoIds(m)[i - 10])
  {
    var a := AssetOf(m, countries, admin1);
    forall i | 10 <= i < |a.records|
      ensures a.records[i] == GeoRecord(m.byId[GeoIds(m)[i - 10]], countries, admin1)
      ensures a.records[i].id == GnId(GeoIds(m)[i - 10])
    {
      AssetOfTail(m, countries, admin1, i);
    }
  }

  /** `build_asset` on the lines of countryInfo.txt, admin1CodesASCII.txt,
      cities15000.txt and cities1000.txt. */
  function BuildAsset(countryLines: seq<string>, admin1Lines: seq<string>,
                      lines15: seq<string>, lines1000: seq<string>): (a: Asset)
    ensures |a.records| >= 10 && a.records[..10] == Curated()
  {
    AssetOf(RunMerge(countryLines, lines15, lines1000), ReadCountryInfo(countryLines).byCode, ReadAdmin1(admin1Lines))
  }

  /** The records after the curated ones have `gn_` ids of keys of `by_id`
      in strictly ascending order. */
  lemma AssetOfOrdered(m: Merge, countries: map<string, Country>, admin1: map<string, string>)
    requires MergeWf(m)
    ensures var a := AssetOf(m, countries, admin1);
      && (forall i :: 10 <= i < |a.records| ==>
            ParseGnId(a.records[i].id).Some? && ParseGnId(a.records[i].id).value in m.byId)
      && (forall i, j :: 10 <= i < j < |a.records| ==>
            ParseGnId(a.records[i].id).value < ParseGnId(a.records[j].id).value)
  {
    var a := AssetOf(m, countries, admin1);
    var ids := GeoIds(m);
    forall i | 10 <= i < |a.records|
      ensures ParseGnId(a.records[i].id) == Some(ids[i - 10])
    {
      AssetOfTail(m, countries, admin1, i);
      GnIdRoundTrip(ids[i - 10]);
    }
  }

  /** No id of the asset repeats: `gn_` ids differ from each other and from the curated ids. */
  lemma AssetOfIdsDistinct(m: Merge, countries: map<string, Country>, admin1: map<string, string>)
    requires MergeWf(m)
    ensures var a := AssetOf(m, countries, admin1);
      forall i, j :: 0 <= i < j < |a.records| && 10 <= j ==> a.records[i].id != a.records[j].id
  {
    var a := AssetOf(m, countries, admin1);
    var ids := GeoIds(m);
    forall i, j | 0 <= i < j < |a.records| && 10 <= j
      ensures a.records[i].id != a.records[j].id
    {
      AssetOfTail(m, countries, admin1, j);
      GnIdRoundTrip(ids[j - 10]);
      if i < 10 {
        AssetOfHead(m, countries, admin1, i);
      } else {
        AssetOfTail(m, countries, admin1, i);
        GnIdRoundTrip(ids[i - 10]);
      }
    }
  }

  /** Every key of `by_id` has its `gn_` record. */
  lemma AssetOfCovers(m: Merge, countries: map<string, Country>, admin1: map<string, string>)
    requires MergeWf(m)
    ensures var a := AssetOf(m, countries, admin1);
      forall k :: k in m.byId ==> exists i :: 10 <= i < |a.records| && a.records[i].id == GnId(k)
  {
    var a := AssetOf(m, countries, admin1);
    var ids := GeoIds(m);
    forall k | k in m.byId
      ensures exists i :: 10 <= i < |a.records| && a.records[i].id == GnId(k)
    {
      var p := Position(ids, k);
      AssetOfTail(m, countries, admin1, 10 + p);
    }
  }

  /** The countries of a run, as the capital loop sees them. */
  function RunLookups(countryLines: seq<string>, lines15: seq<string>, lines1000: seq<string>): seq<Lookup> {
    LookUps(Items(ReadCountryInfo(countryLines)), ParseCities(lines15), ParseCities(lines1000))
  }

  /** After the curated records come `gn_` records in strictly ascending
      geonameid order, and no id of the asset repeats. */
  lemma BuildAssetIds(countryLines: seq<string>, admin1Lines: seq<string>, lines15: seq<string>, lines1000: seq<string>)
    ensures var a := BuildAsset(countryLines, admin1Lines, lines15, lines1000);
      && (forall i :: 10 <= i < |a.records| ==> ParseGnId(a.records[i].id).Some?)
      && (forall i, j :: 10 <= i < j < |a.records| ==>
            ParseGnId(a.records[i].id).value < ParseGnId(a.records[j].id).value)
      && (forall i, j :: 0 <= i < j < |a.records| && 10 <= j ==> a.records[i].id != a.records[j].id)
  {
    var m := RunMerge(countryLines, lines15, lines1000);
    var countries, admin1 := ReadCountryInfo(countryLines).byCode, ReadAdmin1(admin1Lines);
    AssetOfOrdered(m, countries, admin1);
    AssetOfIdsDistinct(m, countries, admin1);
  }

  /** Every record, curated or not, carries the defaults of its own country. */
  lemma AssetOfDefaults(m: Merge, countries: map<string, Country>, admin1: map<string, string>)
    requires MergeWf(m)
    ensures var a := AssetOf(m, countries, admin1);
      forall i :: 0 <= i < |a.records| ==>
        && a.records[i].defaultUnitSystem == DefaultUnitSystem(a.records[i].countryCode)
        && a.records[i].defaultUse24h == DefaultUse24h(a.records[i].countryCode)
  {
    var a := AssetOf(m, countries, admin1);
    forall i | 0 <= i < |a.records|
      ensures a.records[i].defaultUnitSystem == DefaultUnitSystem(a.records[i].countryCode)
      ensures a.records[i].defaultUse24h == DefaultUse24h(a.records[i].countryCode)
    {
      if i < 10 {
        AssetOfHead(m, countries, admin1, i);
        CuratedConsistent();
        assert SeedConsistent(Curated()[i]);
      } else {
        AssetOfTail(m, countries, admin1, i);
      }
    }
  }

  lemma BuildAssetDefaults(countryLines: seq<string>, admin1Lines: seq<string>, lines15: seq<string>, lines1000: seq<string>)
    ensures var a := BuildAsset(countryLines, admin1Lines, lines15, lines1000);
      forall i :: 0 <= i < |a.records| ==>
        && a.records[i].defaultUnitSystem == DefaultUnitSystem(a.records[i].countryCode)
        && a.records[i].defaultUse24h == DefaultUse24h(a.records[i].countryCode)
  {
    var m := RunMerge(countryLines, lines15, lines1000);
    var countries, admin1 := ReadCountryInfo(countryLines).byCode, ReadAdmin1(admin1Lines);
    AssetOfDefaults(m, countries, admin1);
    assert BuildAsset(countryLines, admin1Lines, lines15, lines1000) == AssetOf(m, countries, admin1);
  }

  /** A row without an admin1 code looks up the key "", so it gets an admin1
      name without an admin1 code exactly when the admin1 table has that key. */
  lemma EmptyAdminKey(r: GeoRow, countries: map<string, Country>, admin1: map<string, string>)
    requires r.admin1 == ""
    ensures var rec := GeoRecord(r, countries, admin1);
      rec.admin1Code.None? && (rec.admin1Name.Some? <==> "" in admin1 && admin1[""] != "")
  {
  }

  /** The merge keeps every row of cities15000 under its id. */
  lemma MergedCovers(t: CountryTable, rows15: seq<GeoRow>, rows1000: seq<GeoRow>)
    requires TableWf(t)
    ensures forall r :: r in rows15 ==> r.geonameid in Merged(t, rows15, rows1000).byId
  {
    var init := InitialMerge(rows15);
    EnsureCapitalsKeeps(init, LookUps(Items(t), rows15, rows1000));
    forall r | r in rows15
      ensures r.geonameid in init.byId
    {
      var p := Position(rows15, r);
      assert rows15[p].geonameid == r.geonameid;
    }
  }

  /** The merge holds every capital found in either dump. */
  lemma MergedCapitals(t: CountryTable, rows15: seq<GeoRow>, rows1000: seq<GeoRow>)
    requires TableWf(t)
    ensures var ls := LookUps(Items(t), rows15, rows1000);
      forall j :: 0 <= j < |ls| && Found(ls[j]).Some? ==> Found(ls[j]).value.geonameid in Merged(t, rows15, rows1000).byId
  {
    var ls := LookUps(Items(t), rows15, rows1000);
    var init := InitialMerge(rows15);
    forall j | 0 <= j < |ls| && ls[j].in15.Some?
      ensures ls[j].in15.value.geonameid in init.byId
    {
      var p := Position(rows15, ls[j].in15.value);
      assert rows15[p].geonameid == ls[j].in15.value.geonameid;
    }
    EnsureCapitalsFinds(init, ls);
  }

  /** Every row of the merge is a row of cities15000 or a capital pulled from cities1000. */
  lemma MergedSources(t: CountryTable, rows15: seq<GeoRow>, rows1000: seq<GeoRow>)
    requires TableWf(t)
    ensures var ls := LookUps(Items(t), rows15, rows1000);
            var m := Merged(t, rows15, rows1000);
      forall k :: k in m.byId ==> Sourced(m.byId[k], rows15, ls)
  {
    var ls := LookUps(Items(t), rows15, rows1000);
    var init := InitialMerge(rows15);
    EnsureCapitalsKeeps(init, ls);
    EnsureCapitalsAdds(init, ls);
  }

  /** Every row of cities15000 has its `gn_` record. */
  lemma BuildAssetCoversCities15000(countryLines: seq<string>, admin1Lines: seq<string>,
                                    lines15: seq<string>, lines1000: seq<string>)
    ensures var a := BuildAsset(countryLines, admin1Lines, lines15, lines1000);
      forall r :: r in ParseCities(lines15) ==> exists i :: 10 <= i < |a.records| && a.records[i].id == GnId(r.geonameid)
  {
    var t := ReadCountryInfo(countryLines);
    var rows15 := ParseCities(lines15);
    var m := Merged(t, rows15, ParseCities(lines1000));
    var a := AssetOf(m, t.byCode, ReadAdmin1(admin1Lines));
    assert BuildAsset(countryLines, admin1Lines, lines15, lines1000) == a;
    MergedCovers(t, rows15, ParseCities(lines1000));
    AssetOfCovers(m, t.byCode, ReadAdmin1(admin1Lines));
    forall r | r in rows15
      ensures exists i :: 10 <= i < |a.records| && a.records[i].id == GnId(r.geonameid)
    {
      assert r.geonameid in m.byId;
    }
  }

  /** Every country whose capital either dump has gets that capital's `gn_` record. */
  lemma BuildAssetCapitals(countryLines: seq<string>, admin1Lines: seq<string>,
                           lines15: seq<string>, lines1000: seq<string>)
    ensures var a := BuildAsset(countryLines, admin1Lines, lines15, lines1000);
            var ls := RunLookups(countryLines, lines15, lines1000);
      forall j :: 0 <= j < |ls| && Found(ls[j]).Some? ==>
        exists i :: 10 <= i < |a.records| && a.records[i].id == GnId(Found(ls[j]).value.geonameid)
  {
    var t := ReadCountryInfo(countryLines);
    var ls := RunLookups(countryLines, lines15, lines1000);
    var m := Merged(t, ParseCities(lines15), ParseCities(lines1000));
    var a := AssetOf(m, t.byCode, ReadAdmin1(admin1Lines));
    assert BuildAsset(countryLines, admin1Lines, lines15, lines1000) == a;
    MergedCapitals(t, ParseCities(lines15), ParseCities(lines1000));
    AssetOfCovers(m, t.byCode, ReadAdmin1(admin1Lines));
    forall j | 0 <= j < |ls| && Found(ls[j]).Some?
      ensures exists i :: 10 <= i < |a.records| && a.records[i].id == GnId(Found(ls[j]).value.geonameid)
    {
      assert Found(ls[j]).value.geonameid in m.byId;
    }
  }

  /** The reported missing capitals are exactly the countries with a capital
      that neither dump has, by code and capital. */
  lemma BuildAssetMissing(countryLines: seq<string>, admin1Lines: seq<string>,
                          lines15: seq<string>, lines1000: seq<string>)
    ensures var a := BuildAsset(countryLines, admin1Lines, lines15, lines1000);
            var ls := RunLookups(countryLines, lines15, lines1000);
      forall p :: p in a.missingCapitals <==>
        exists j :: 0 <= j < |ls| && Unresolved(ls[j]) && p == (ls[j].code, ls[j].capital)
  {
    var init := InitialMerge(ParseCities(lines15));
    var ls := RunLookups(countryLines, lines15, lines1000);
    EnsureCapitalsMissing(init, ls);
    var s := EnsureCapitals(init, ls);
    assert s.missing[|init.missing|..] == s.missing;
  }

  /** A row of cities15000, or the cities1000 row of a capital that cities15000 lacks. */
  ghost predicate Sourced(r: GeoRow, rows15: seq<GeoRow>, ls: seq<Lookup>) {
    r in rows15 || exists j :: 0 <= j < |ls| && Pulled(ls[j], r)
  }

  /** A record built from a sourced row. */
  ghost predicate BuiltFromSource(rec: CityRecord, rows15: seq<GeoRow>, ls: seq<Lookup>,
                                  countries: map<string, Country>, admin1: map<string, string>) {
    exists r :: Sourced(r, rows15, ls) && rec == GeoRecord(r, countries, admin1)
  }

  /** When every row of `by_id` is sourced, so is every `gn_` record. */
  lemma AssetOfSourced(m: Merge, countries: map<string, Country>, admin1: map<string, string>,
                       rows15: seq<GeoRow>, ls: seq<Lookup>)
    requires MergeWf(m)
    requires forall k :: k in m.byId ==> Sourced(m.byId[k], rows15, ls)
    ensures var a := AssetOf(m, countries, admin1);
      forall i :: 10 <= i < |a.records| ==> BuiltFromSource(a.records[i], rows15, ls, countries, admin1)
  {
    var a := AssetOf(m, countries, admin1);
    forall i | 10 <= i < |a.records|
      ensures BuiltFromSource(a.records[i], rows15, ls, countries, admin1)
    {
      var k := SourceKey(m, countries, admin1, i);
      assert Sourced(m.byId[k], rows15, ls);
    }
  }

  /** The key of `by_id` whose row the record at position `i` is built from. */
  function SourceKey(m: Merge, countries: map<string, Country>, admin1: map<string, string>, i: nat): (k: int)
    requires MergeWf(m)
    requires 10 <= i < |AssetOf(m, countries, admin1).records|
    ensures k in m.byId
    ensures AssetOf(m, countries, admin1).records[i] == GeoRecord(m.byId[k], countries, admin1)
  {
    AssetOfTail(m, countries, admin1, i);
    GeoIds(m)[i - 10]
  }

  /** Every `gn_` record is built from a row of cities15000, or from the
      cities1000 row of a capital that cities15000 lacks. */
  lemma BuildAssetSources(countryLines: seq<string>, admin1Lines: seq<string>,
                          lines15: seq<string>, lines1000: seq<string>)
    ensures var a := BuildAsset(countryLines, admin1Lines, lines15, lines1000);
      forall i :: 10 <= i < |a.records| ==>
        BuiltFromSource(a.records[i], ParseCities(lines15), RunLookups(countryLines, lines15, lines1000),
                        ReadCountryInfo(countryLines).byCode, ReadAdmin1(admin1Lines))
  {
    var t := ReadCountryInfo(countryLines);
    var rows15 := ParseCities(lines15);
    var ls := RunLookups(countryLines, lines15, lines1000);
    var m := Merged(t, rows15, ParseCities(lines1000));
    assert ls == LookUps(Items(t), rows15, ParseCities(lines1000));
    MergedSources(t, rows15, ParseCities(lines1000));
    AssetOfSourced(m, t.byCode, ReadAdmin1(admin1Lines), rows15, ls);
    assert BuildAsset(countryLines, admin1Lines, lines15, lines1000) == AssetOf(m, t.byCode, ReadAdmin1(admin1Lines));
  }
}
