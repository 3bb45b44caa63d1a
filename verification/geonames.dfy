/** The GeoNames readers of generate_cities_v1.py (`_read_country_info`,
    `_read_admin1`, the per-line part of `_iter_geonames_cities`), each on the
    lines of an already opened file. */
module GeoNames {
  import opened Optional
  import opened PyText
  import opened Tables

  /** One line of countryInfo.txt. */
  datatype Country = Country(code2: string, name: string, iso3: string, capital: string,
                             continent: string, currency: string)

  /** One populated place of a cities*.txt dump. */
  datatype GeoRow = GeoRow(geonameid: int, name: string, asciiname: string, alternates: seq<string>,
                           country: string, admin1: string, tz: string, population: int)

  /** Blank and `#` lines are skipped by the country and admin1 readers. */
  predicate IsBlankOrComment(line: string) {
    Strip(line) == "" || StartsWith(line, "#")
  }

  /** The tab-separated fields of a line, trailing newlines removed. */
  function Fields(line: string): seq<string> {
    Split(RStripNewlines(line), '\t')
  }

  /** One line of countryInfo.txt: skipped when blank, a comment, shorter than
      11 fields or without a code. */
  function ParseCountryLine(line: string): (r: Option<Country>)
    ensures r.Some? <==> !IsBlankOrComment(line) && |Fields(line)| >= 11 && Strip(Fields(line)[0]) != ""
    ensures r.Some? ==>
      var f := Fields(line);
      && r.value.code2 == Strip(f[0]) && r.value.iso3 == Strip(f[1]) && r.value.name == Strip(f[4])
      && r.value.capital == Strip(f[5]) && r.value.continent == Strip(f[8]) && r.value.currency == Strip(f[10])
  {
    if IsBlankOrComment(line) then None
    else
      var parts := Fields(line);
      if |parts| < 11 then None
      else
        var code2 := Strip(parts[0]);
        if code2 == "" then None
        else Some(Country(code2 := code2, name := Strip(parts[4]), iso3 := Strip(parts[1]),
                          capital := Strip(parts[5]), continent := Strip(parts[8]),
                          currency := Strip(parts[10])))
  }

  function CountryEntry(line: string): Option<(string, Country)> {
    match ParseCountryLine(line)
    case None => None
    case Some(c) => Some((c.code2, c))
  }

  function CountryEntries(lines: seq<string>): (es: seq<Option<(string, Country)>>)
    ensures |es| == |lines|
    ensures forall i :: 0 <= i < |lines| ==> es[i] == CountryEntry(lines[i])
  {
    seq(|lines|, i requires 0 <= i < |lines| => CountryEntry(lines[i]))
  }

  /** The `countries` dictionary: codes in first-seen order, each with its last line. */
  datatype CountryTable = CountryTable(order: seq<string>, byCode: map<string, Country>)

  ghost predicate TableWf(t: CountryTable) {
    && (forall k :: k in t.order <==> k in t.byCode)
    && (forall k :: k in t.byCode ==> t.byCode[k].code2 == k)
  }

  /** `_read_country_info`: a code is present exactly when some accepted line
      carries it, it maps to the country of the LAST such line, and codes are
      listed once each in the order they were first seen. */
  function ReadCountryInfo(lines: seq<string>): (t: CountryTable)
    ensures TableWf(t)
    ensures forall i, j :: 0 <= i < j < |t.order| ==> t.order[i] != t.order[j]
    ensures forall k :: k in t.byCode <==> LastEntry(CountryEntries(lines), k).Some?
    ensures forall k :: k in t.byCode ==>
              ParseCountryLine(lines[LastEntry(CountryEntries(lines), k).value]) == Some(t.byCode[k])
  {
    var entries := CountryEntries(lines);
    var m := Assemble(entries);
    CountryTable(KeyOrder(entries), m)
  }

  /** `countries.items()` lists each code at the place of the first line
      that carries it. */
  lemma ReadCountryInfoOrder(lines: seq<string>)
    ensures forall i :: 0 <= i < |ReadCountryInfo(lines).order| ==>
              FirstEntry(CountryEntries(lines), ReadCountryInfo(lines).order[i]).Some?
    ensures forall i, j :: 0 <= i < j < |ReadCountryInfo(lines).order| ==>
              FirstEntry(CountryEntries(lines), ReadCountryInfo(lines).order[i]).value
                < FirstEntry(CountryEntries(lines), ReadCountryInfo(lines).order[j]).value
  {
    KeyOrderFirst(CountryEntries(lines));
    assert ReadCountryInfo(lines).order == KeyOrder(CountryEntries(lines));
  }

  /** The countries in `countries.items()` order. */
  function Items(t: CountryTable): (cs: seq<Country>)
    requires TableWf(t)
    ensures |cs| == |t.order|
    ensures forall i :: 0 <= i < |cs| ==> cs[i] == t.byCode[t.order[i]] && cs[i].code2 == t.order[i]
  {
    seq(|t.order|, i requires 0 <= i < |t.order| => t.byCode[t.order[i]])
  }

  /** One line of admin1CodesASCII.txt: the stripped code (possibly empty) and name. */
  function ParseAdmin1Line(line: string): (r: Option<(string, string)>)
    ensures r.Some? <==> !IsBlankOrComment(line) && |Fields(line)| >= 2
    ensures r.Some? ==> r.value.0 == Strip(Fields(line)[0]) && r.value.1 == Strip(Fields(line)[1])
  {
    if IsBlankOrComment(line) then None
    else
      var parts := Fields(line);
      if |parts| < 2 then None else Some((Strip(parts[0]), Strip(parts[1])))
  }

  function Admin1Entries(lines: seq<string>): (es: seq<Option<(string, string)>>)
    ensures |es| == |lines|
    ensures forall i :: 0 <= i < |lines| ==> es[i] == ParseAdmin1Line(lines[i])
  {
    seq(|lines|, i requires 0 <= i < |lines| => ParseAdmin1Line(lines[i]))
  }

  /** `_read_admin1`: "CC.ADMIN1" to name; a code is present exactly when some
      line carries it, and the last such line wins. */
  function ReadAdmin1(lines: seq<string>): (m: map<string, string>)
    ensures forall k :: k in m <==> LastEntry(Admin1Entries(lines), k).Some?
    ensures forall k :: k in m ==> ParseAdmin1Line(lines[LastEntry(Admin1Entries(lines), k).value]) == Some((k, m[k]))
  {
    Assemble(Admin1Entries(lines))
  }

  /** `[a for a in s.split(",") if a]` */
  function NonEmpty(xs: seq<string>): (r: seq<string>)
    ensures forall x :: x in r <==> x in xs && x != ""
    ensures |r| <= |xs|
    ensures |xs| == 1 ==> r == (if xs[0] == "" then [] else xs)
  {
    if |xs| == 0 then []
    else (if xs[0] == "" then [] else [xs[0]]) + NonEmpty(xs[1..])
  }

  /** The filter keeps the order and the repeats of the names: filtering a
      concatenation filters each part. */
  lemma {:induction false} NonEmptyConcat(a: seq<string>, b: seq<string>)
    ensures NonEmpty(a + b) == NonEmpty(a) + NonEmpty(b)
  {
    if |a| == 0 {
      assert a + b == b;
    } else {
      var head := if a[0] == "" then [] else [a[0]];
      assert (a + b)[0] == a[0] && (a + b)[1..] == a[1..] + b;
      NonEmptyConcat(a[1..], b);
      assert NonEmpty(a + b) == head + (NonEmpty(a[1..]) + NonEmpty(b));
    }
  }

  /** One line of a cities*.txt dump. It yields a row only if it has at least
      19 fields, field 0 is an integer, field 6 is "P", and the name, country
      and time zone are not blank; an unparsable population reads as 0. */
  function ParseCityLine(line: string): (r: Option<GeoRow>)
    ensures r.Some? ==>
      && |Fields(line)| >= 19
      && ParseInt(Fields(line)[0]) == Some(r.value.geonameid)
      && Strip(Fields(line)[6]) == "P"
      && r.value.name != "" && r.value.country != "" && r.value.tz != ""
      && r.value.population == ParseInt(Fields(line)[14]).GetOr(0)
      && (forall a :: a in r.value.alternates ==> a != "")
    ensures r.Some? ==>
      var f := Fields(line);
      && r.value.name == Strip(f[1]) && r.value.asciiname == Strip(f[2]) && r.value.country == Strip(f[8])
      && r.value.admin1 == Strip(f[10]) && r.value.tz == Strip(f[17])
      && r.value.alternates == NonEmpty(Split(f[3], ','))
    ensures |Fields(line)| >= 19 && ParseInt(Fields(line)[0]).Some? && Strip(Fields(line)[6]) == "P"
      && Strip(Fields(line)[1]) != "" && Strip(Fields(line)[8]) != "" && Strip(Fields(line)[17]) != ""
      ==> r.Some?
  {
    var l := RStripNewlines(line);
    if l == "" then None
    else
      var parts := Split(l, '\t');
      if |parts| < 19 then None
      else match ParseInt(parts[0])
        case None => None
        case Some(geonameid) =>
          var name := Strip(parts[1]);
          var country := Strip(parts[8]);
          var tz := Strip(parts[17]);
          if Strip(parts[6]) != "P" then None
          else if name == "" || country == "" || tz == "" then None
          else Some(GeoRow(geonameid := geonameid, name := name, asciiname := Strip(parts[2]),
                           alternates := NonEmpty(Split(parts[3], ',')), country := country,
                           admin1 := Strip(parts[10]), tz := tz,
                           population := ParseInt(parts[14]).GetOr(0)))
  }

  /** What one line contributes: its row, or nothing. */
  function LineRows(line: string): (rs: seq<GeoRow>)
    ensures |rs| <= 1
    ensures forall r :: r in rs <==> ParseCityLine(line) == Some(r)
  {
    match ParseCityLine(line)
    case None => []
    case Some(r) => [r]
  }

  /** `list(_iter_geonames_cities(...))`: the accepted rows, in file order. */
  function ParseCities(lines: seq<string>): (rows: seq<GeoRow>)
    ensures |rows| <= |lines|
    ensures forall r :: r in rows <==> exists l :: l in lines && ParseCityLine(l) == Some(r)
    ensures |lines| == 1 ==> rows == LineRows(lines[0])
  {
    if |lines| == 0 then []
    else
      var rest := ParseCities(lines[1..]);
      assert forall l :: l in lines <==> l == lines[0] || l in lines[1..];
      LineRows(lines[0]) + rest
  }

  /** The rows keep the file order and every repeat: reading a
      concatenation of lines reads each part in turn. */
  lemma {:induction false} ParseCitiesConcat(a: seq<string>, b: seq<string>)
    ensures ParseCities(a + b) == ParseCities(a) + ParseCities(b)
  {
    if |a| == 0 {
      assert a + b == b;
    } else {
      assert (a + b)[0] == a[0] && (a + b)[1..] == a[1..] + b;
      ParseCitiesConcat(a[1..], b);
    }
  }
}
