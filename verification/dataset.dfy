/** build_cities_dataset.py: the second, simpler builder of cities.json. It
    reads the same GeoNames dumps as generate_cities_v1.py but keys admin1
    names by (country, admin1) pairs, makes slug ids from the names, guesses
    the defaults for the United States only, and sorts the rows by a
    lower-cased "City, CC" display key. Lines are those of `splitlines()`,
    so they carry no line break. */
module CitiesDataset {
  import opened Optional
  import opened PyText
  import opened Tables
  import GeoNames
  import GenerateCities

  /** Lines skipped by both readers: empty or starting with `#` (not stripped). */
  predicate Skipped(line: string) {
    line == "" || StartsWith(line, "#")
  }

  function Fields(line: string): seq<string> {
    Split(line, '\t')
  }

  // ---------------------------------------------------------------------------
  // countryInfo.txt

  datatype CountryInfo = CountryInfo(countryName: string, currencyCode: string)

  /** One line of countryInfo.txt: kept when not skipped, at least 11 fields
      long and with a non-blank ISO code. */
  function ParseCountryInfoLine(line: string): (r: Option<(string, CountryInfo)>)
    ensures r.Some? <==> !Skipped(line) && |Fields(line)| >= 11 && Strip(Fields(line)[0]) != ""
    ensures r.Some? ==> r.value.0 == Strip(Fields(line)[0])
                        && r.value.1.countryName == Strip(Fields(line)[4])
                        && r.value.1.currencyCode == Strip(Fields(line)[10])
  {
    if Skipped(line) then None
    else
      var parts := Fields(line);
      if |parts| < 11 then None
      else
        var iso := Strip(parts[0]);
        if iso == "" then None
        else Some((iso, CountryInfo(Strip(parts[4]), Strip(parts[10]))))
  }

  function CountryInfoEntries(lines: seq<string>): (es: seq<Option<(string, CountryInfo)>>)
    ensures |es| == |lines|
    ensures forall i :: 0 <= i < |lines| ==> es[i] == ParseCountryInfoLine(lines[i])
  {
    seq(|lines|, i requires 0 <= i < |lines| => ParseCountryInfoLine(lines[i]))
  }

  /** `parse_country_info`: a code is present exactly when some kept line
      carries it, and it maps to the name and currency of the last such line. */
  function ParseCountryInfo(lines: seq<string>): (m: map<string, CountryInfo>)
    ensures forall k :: k in m <==> LastEntry(CountryInfoEntries(lines), k).Some?
    ensures forall k :: k in m ==>
              ParseCountryInfoLine(lines[LastEntry(CountryInfoEntries(lines), k).value]) == Some((k, m[k]))
  {
    Assemble(CountryInfoEntries(lines))
  }

  /** The generator's countryInfo reader keeps exactly the same lines and reads
      the same code, name and currency from them, although it skips lines whose
      strip() is empty rather than only empty lines. */
  lemma CountryReadersAgree(line: string)
    requires '\n' !in line
    ensures ParseCountryInfoLine(line) ==
              match GeoNames.ParseCountryLine(line)
              case None => None
              case Some(c) => Some((c.code2, CountryInfo(c.name, c.currency)))
  {
    if |line| > 0 {
      assert line[|line| - 1] in line;
    }
    assert RStripNewlines(line) == line;
    assert GeoNames.Fields(line) == Fields(line);
    if line != "" && Strip(line) == "" {
      var head := Fields(line)[0];
      SplitHeadPrefix(line, '\t');
      assert forall k :: 0 <= k < |head| ==> head[k] == line[k];
      assert Strip(head) == "";
    }
  }

  // ---------------------------------------------------------------------------
  // admin1CodesASCII.txt

  /** `code.split(".", 1)` on a code holding a dot: the part before the first
      dot and the rest. */
  function SplitAtDot(code: string): (r: Option<(string, string)>)
    ensures r.Some? <==> '.' in code
    ensures r.Some? ==> '.' !in r.value.0 && r.value.0 + "." + r.value.1 == code
  {
    match IndexOf(code, '.')
    case None => None
    case Some(d) =>
      assert code == code[..d] + [code[d]] + code[d + 1..];
      Some((code[..d], code[d + 1..]))
  }

  /** The split is undone by joining with the dot, and undoes it. */
  lemma SplitAtDotRoundTrip(cc: string, a1: string)
    requires '.' !in cc
    ensures SplitAtDot(cc + "." + a1) == Some((cc, a1))
  {
    var code := cc + "." + a1;
    assert code[|cc|] == '.' && code[..|cc|] == cc;
  }

  /** One line of admin1CodesASCII.txt: the stripped code is cut at its first
      dot into a country code and an admin1 code, and the entry is kept exactly
      when both halves and the name are non-empty. */
  function ParseAdmin1InfoLine(line: string): (r: Option<((string, string), string)>)
    ensures r.Some? <==>
              && !Skipped(line) && |Fields(line)| >= 2 && Strip(Fields(line)[1]) != ""
              && SplitAtDot(Strip(Fields(line)[0])).Some?
              && SplitAtDot(Strip(Fields(line)[0])).value.0 != ""
              && SplitAtDot(Strip(Fields(line)[0])).value.1 != ""
    ensures r.Some? ==>
              && r.value.0 == SplitAtDot(Strip(Fields(line)[0])).value
              && r.value.1 == Strip(Fields(line)[1]) && r.value.1 != ""
  {
    if Skipped(line) then None
    else
      var parts := Fields(line);
      if |parts| < 2 then None
      else
        var name := Strip(parts[1]);
        match SplitAtDot(Strip(parts[0]))
        case None => None
        case Some(halves) =>
          if halves.0 != "" && halves.1 != "" && name != "" then Some((halves, name)) else None
  }

  /** A tab-joined line whose first field does not start with `#` is split
      back into its fields and is not skipped. */
  lemma JoinedLine(parts: seq<string>)
    requires |parts| >= 2 && |parts[0]| > 0 && parts[0][0] != '#'
    requires forall i :: 0 <= i < |parts| ==> '\t' !in parts[i]
    ensures Fields(Join(parts, '\t')) == parts
    ensures !Skipped(Join(parts, '\t'))
  {
    JoinSplit(parts, '\t');
    var line := Join(parts, '\t');
    assert line == parts[0] + ['\t'] + Join(parts[1..], '\t');
    assert line[0] == parts[0][0];
    assert line[..1] != "#";
  }

  /** A well-formed line built from its fields is read back to them. */
  lemma Admin1LineRoundTrip(cc: string, a1: string, name: string, parts: seq<string>)
    requires cc != "" && a1 != "" && name != ""
    requires cc[0] != '#' && '.' !in cc
    requires !IsSpace(cc[0]) && !IsSpace(a1[|a1| - 1]) && !IsSpace(name[0]) && !IsSpace(name[|name| - 1])
    requires |parts| >= 2 && parts[0] == cc + "." + a1 && parts[1] == name
    requires forall i :: 0 <= i < |parts| ==> '\t' !in parts[i]
    ensures ParseAdmin1InfoLine(Join(parts, '\t')) == Some(((cc, a1), name))
  {
    JoinedLine(parts);
    StripTrimmed(parts[0]);
    StripTrimmed(name);
    SplitAtDotRoundTrip(cc, a1);
  }

  function Admin1InfoEntries(lines: seq<string>): (es: seq<Option<((string, string), string)>>)
    ensures |es| == |lines|
    ensures forall i :: 0 <= i < |lines| ==> es[i] == ParseAdmin1InfoLine(lines[i])
  {
    seq(|lines|, i requires 0 <= i < |lines| => ParseAdmin1InfoLine(lines[i]))
  }

  /** `parse_admin1_info`: (country, admin1) pairs to names, the last line winning. */
  function ParseAdmin1Info(lines: seq<string>): (m: map<(string, string), string>)
    ensures forall k :: k in m <==> LastEntry(Admin1InfoEntries(lines), k).Some?
    ensures forall k :: k in m ==>
              ParseAdmin1InfoLine(lines[LastEntry(Admin1InfoEntries(lines), k).value]) == Some((k, m[k]))
  {
    Assemble(Admin1InfoEntries(lines))
  }

  /** Every pair this reader keeps is a "CC.A1" code the generator's admin1
      reader keeps too, under the same name. */
  lemma Admin1ReadersAgree(line: string)
    requires '\n' !in line
    requires ParseAdmin1InfoLine(line).Some?
    ensures var e := ParseAdmin1InfoLine(line).value;
            GeoNames.ParseAdmin1Line(line) == Some((e.0.0 + "." + e.0.1, e.1))
  {
    if |line| > 0 {
      assert line[|line| - 1] in line;
    }
    assert RStripNewlines(line) == line;
    assert GeoNames.Fields(line) == Fields(line);
    var head := Fields(line)[0];
    SplitHeadPrefix(line, '\t');
    assert Strip(head) != "";
    var k :| 0 <= k < |head| && !IsSpace(head[k]);
    assert head[k] == line[k];
  }

  // ---------------------------------------------------------------------------
  // defaults and ids

  /** `infer_defaults`: imperial units and the 12-hour clock for the United
      States, metric and 24-hour for everyone else. */
  function InferDefaults(cc: string): (r: (string, bool))
    ensures r == ("imperial", false) || r == ("metric", true)
    ensures r.0 == "imperial" <==> Upper(cc) == "US"
  {
    if Upper(cc) == "US" then ("imperial", false) else ("metric", true)
  }

  /** The US test letter by letter: a two-character code whose upper-cased
      letters spell US. */
  lemma InferDefaultsIff(cc: string)
    ensures InferDefaults(cc) == ("imperial", false) <==>
              |cc| == 2 && UpperChar(cc[0]) == 'U' && UpperChar(cc[1]) == 'S'
  {
    if |cc| == 2 {
      assert Upper(cc) == [UpperChar(cc[0]), UpperChar(cc[1])];
    } else {
      assert |Upper(cc)| != 2;
    }
  }

  /** The two builders pick the same defaults except for Liberia and Myanmar
      (imperial in the generator) and Canada (12-hour in the generator). */
  lemma InferDefaultsVersusGenerator(cc: string)
    requires Upper(cc) != "LR" && Upper(cc) != "MM" && Upper(cc) != "CA"
    ensures InferDefaults(cc).0 == GenerateCities.DefaultUnitSystem(cc)
    ensures InferDefaults(cc).1 == GenerateCities.DefaultUse24h(cc)
  {
  }

  lemma InferDefaultsDisagreements()
    ensures InferDefaults("CA").1 != GenerateCities.DefaultUse24h("CA")
    ensures InferDefaults("LR").0 != GenerateCities.DefaultUnitSystem("LR")
    ensures InferDefaults("MM").0 != GenerateCities.DefaultUnitSystem("MM")
  {
    assert Upper("CA") == "CA" && Upper("LR") == "LR" && Upper("MM") == "MM";
  }

  /** The name part of an id: stripped, lower-cased, spaces turned into `_`. */
  function Slug(name: string): (s: string)
    ensures |s| == |Strip(name)|
    ensures ' ' !in s
    ensures forall i :: 0 <= i < |s| ==>
              s[i] == (if Lower(Strip(name))[i] == ' ' then '_' else Lower(Strip(name))[i])
  {
    ReplaceChar(Lower(Strip(name)), ' ', '_')
  }

  /** `build_city_id`: the slug, then the lower-cased admin1 code when there
      is a non-blank one, then the lower-cased country code, joined by `_`. */
  function CityId(name: string, cc: string, admin1: Option<string>): (id: string)
    ensures |id| >= |Slug(name)| + 1 + |Strip(cc)|
  {
    var base := Slug(name);
    var c := Lower(Strip(cc));
    if admin1.Some? && Strip(admin1.value) != "" then base + "_" + Lower(Strip(admin1.value)) + "_" + c
    else base + "_" + c
  }

  /** Every id starts with the slug and an underscore and ends with an
      underscore and the lower-cased country code; there is something in
      between exactly when the admin1 code is non-blank. */
  lemma CityIdShape(name: string, cc: string, admin1: Option<string>)
    ensures var id := CityId(name, cc, admin1);
            && StartsWith(id, Slug(name) + "_")
            && EndsWith(id, "_" + Lower(Strip(cc)))
            && (|id| == |Slug(name)| + 1 + |Strip(cc)| <==> admin1.None? || Strip(admin1.value) == "")
            && (admin1.Some? && Strip(admin1.value) != "" ==>
                  id[|Slug(name)| + 1..|id| - |Strip(cc)| - 1] == Lower(Strip(admin1.value)))
  {
    CityIdStarts(name, cc, admin1);
    CityIdEnds(name, cc, admin1);
    if admin1.Some? && Strip(admin1.value) != "" {
      CityIdAdminPart(name, cc, admin1);
    }
  }

  lemma CityIdAdminPart(name: string, cc: string, admin1: Option<string>)
    requires admin1.Some? && Strip(admin1.value) != ""
    ensures var id := CityId(name, cc, admin1);
            id[|Slug(name)| + 1..|id| - |Strip(cc)| - 1] == Lower(Strip(admin1.value))
  {
    var base, a, c := Slug(name), Lower(Strip(admin1.value)), Lower(Strip(cc));
    var id := base + "_" + a + "_" + c;
    assert CityId(name, cc, admin1) == id;
    assert id[|base| + 1..|id| - |c| - 1] == a;
  }

  lemma CityIdStarts(name: string, cc: string, admin1: Option<string>)
    ensures StartsWith(CityId(name, cc, admin1), Slug(name) + "_")
  {
    var id := CityId(name, cc, admin1);
    var base := Slug(name);
    assert id[..|base| + 1] == base + "_";
  }

  lemma CityIdEnds(name: string, cc: string, admin1: Option<string>)
    ensures EndsWith(CityId(name, cc, admin1), "_" + Lower(Strip(cc)))
  {
    var c := Lower(Strip(cc));
    var base := Slug(name);
    if admin1.Some? && Strip(admin1.value) != "" {
      EndsWithJoin(base + "_" + Lower(Strip(admin1.value)), c);
    } else {
      EndsWithJoin(base, c);
    }
  }

  lemma EndsWithJoin(p: string, c: string)
    ensures EndsWith(p + "_" + c, "_" + c)
  {
    var s := p + "_" + c;
    assert s[|s| - |c| - 1..] == "_" + c;
  }

  /** Ids are not unique: a two-word city without admin1 code and a one-word
      city whose admin1 code is the second word get the same id. */
  lemma CityIdCollision()
    ensures CityId("a b", "x", None) == CityId("a", "x", Some("b")) == "a_b_x"
  {
    SpacedNameId();
    AdminPartId();
  }

  lemma SpacedNameId()
    ensures CityId("a b", "x", None) == "a_b_x"
  {
    StripTrimmed("a b");
    StripTrimmed("x");
    assert Slug("a b") == "a_b";
  }

  lemma AdminPartId()
    ensures CityId("a", "x", Some("b")) == "a_b_x"
  {
    StripTrimmed("a");
    StripTrimmed("b");
    StripTrimmed("x");
  }

  // ---------------------------------------------------------------------------
  // city rows

  /** One record of the dataset. */
  datatype DatasetRow = DatasetRow(id: string, cityName: string, countryCode: string,
                                   countryName: string, admin1Code: Option<string>,
                                   admin1Name: Option<string>, timeZoneId: string,
                                   currencyCode: string, defaultUnitSystem: string,
                                   defaultUse24h: bool)

  /** What every kept record satisfies. */
  predicate RowWf(r: DatasetRow) {
    && r.cityName != "" && r.countryCode != "" && r.timeZoneId != ""
    && (r.admin1Code.Some? ==> r.admin1Code.value != "")
    && (r.admin1Name.Some? ==> r.admin1Code.Some? && r.admin1Name.value != "")
    && r.id == CityId(r.cityName, r.countryCode, r.admin1Code)
    && (r.defaultUnitSystem, r.defaultUse24h) == InferDefaults(r.countryCode)
  }

  /** One line of a cities dump: kept when it has 18 fields and a non-blank
      name, country code and time zone; the country and admin1 names come from
      the tables, and an absent admin1 code or a missed lookup gives None. */
  function ParseCityRow(line: string, countries: map<string, CountryInfo>,
                        admins: map<(string, string), string>): (r: Option<DatasetRow>)
    ensures r.Some? <==> |Fields(line)| >= 18 && Strip(Fields(line)[1]) != ""
                         && Strip(Fields(line)[8]) != "" && Strip(Fields(line)[17]) != ""
    ensures r.Some? ==> RowWf(r.value)
    ensures r.Some? ==>
              var parts := Fields(line);
              var cc := Strip(parts[8]);
              && r.value.cityName == Strip(parts[1]) && r.value.countryCode == cc
              && r.value.timeZoneId == Strip(parts[17])
              && (r.value.admin1Code.None? <==> Strip(parts[10]) == "")
              && (r.value.admin1Code.Some? ==> r.value.admin1Code.value == Strip(parts[10]))
              && (r.value.admin1Name.Some? <==>
                    Strip(parts[10]) != "" && (cc, Strip(parts[10])) in admins
                    && admins[(cc, Strip(parts[10]))] != "")
              && (r.value.admin1Name.Some? ==> r.value.admin1Name.value == admins[(cc, Strip(parts[10]))])
              && (cc in countries ==> r.value.countryName == countries[cc].countryName
                                      && r.value.currencyCode == countries[cc].currencyCode)
              && (cc !in countries ==> r.value.countryName == "" && r.value.currencyCode == "")
  {
    var parts := Fields(line);
    if |parts| < 18 then None
    else
      var name := Strip(parts[1]);
      var cc := Strip(parts[8]);
      var admin1 := Strip(parts[10]);
      var tz := Strip(parts[17]);
      if name == "" || cc == "" || tz == "" then None
      else
        var country := if cc in countries then countries[cc] else CountryInfo("", "");
        var admin1Code := if admin1 != "" then Some(admin1) else None;
        var looked := if admin1 != "" && (cc, admin1) in admins then admins[(cc, admin1)] else "";
        var admin1Name := if looked != "" then Some(looked) else None;
        var defaults := InferDefaults(cc);
        Some(DatasetRow(CityId(name, cc, admin1Code), name, cc, country.countryName, admin1Code,
                        admin1Name, tz, country.currencyCode, defaults.0, defaults.1))
  }

  /** What one parsed line contributes: its result, or nothing. */
  function OneOf<T>(o: Option<T>): seq<T> {
    match o
    case None => []
    case Some(x) => [x]
  }

  /** The results of the first `n` lines that `parse` accepts, in line order. */
  function Kept<T>(lines: seq<string>, parse: string -> Option<T>, n: nat): seq<T>
    requires n <= |lines|
  {
    if n == 0 then [] else Kept(lines, parse, n - 1) + OneOf(parse(lines[n - 1]))
  }

  /** At most one result per line; every accepted line's result is kept, and
      every kept result comes from an accepted line. */
  lemma {:induction false} KeptFacts<T>(lines: seq<string>, parse: string -> Option<T>, n: nat)
    requires n <= |lines|
    ensures var r := Kept(lines, parse, n);
      && |r| <= n
      && (forall i :: 0 <= i < n && parse(lines[i]).Some? ==> parse(lines[i]).value in r)
      && (forall k :: 0 <= k < |r| ==> exists i :: 0 <= i < n && parse(lines[i]) == Some(r[k]))
  {
    if n > 0 {
      KeptFacts(lines, parse, n - 1);
      var prev, r := Kept(lines, parse, n - 1), Kept(lines, parse, n);
      forall k | 0 <= k < |r| ensures exists i :: 0 <= i < n && parse(lines[i]) == Some(r[k]) {
        if k < |prev| {
          assert r[k] == prev[k];
        } else {
          assert parse(lines[n - 1]) == Some(r[k]);
        }
      }
    }
  }

  /** Kept only looks at the first `n` lines. */
  lemma {:induction false} KeptPrefix<T>(a: seq<string>, b: seq<string>, parse: string -> Option<T>, n: nat)
    requires n <= |a|
    ensures Kept(a + b, parse, n) == Kept(a, parse, n)
  {
    if n > 0 {
      assert (a + b)[n - 1] == a[n - 1];
      KeptPrefix(a, b, parse, n - 1);
    }
  }

  /** Keeping from a concatenation keeps from each part in turn. */
  lemma {:induction false} KeptConcat<T>(a: seq<string>, b: seq<string>, parse: string -> Option<T>, j: nat)
    requires j <= |b|
    ensures Kept(a + b, parse, |a| + j) == Kept(a, parse, |a|) + Kept(b, parse, j)
  {
    if j == 0 {
      KeptPrefix(a, b, parse, |a|);
    } else {
      assert (a + b)[|a| + j - 1] == b[j - 1];
      KeptConcat(a, b, parse, j - 1);
    }
  }

  lemma KeptWhole<T>(a: seq<string>, b: seq<string>, parse: string -> Option<T>)
    ensures Kept(a + b, parse, |a + b|) == Kept(a, parse, |a|) + Kept(b, parse, |b|)
  {
    KeptConcat(a, b, parse, |b|);
  }

  function CityParser(countries: map<string, CountryInfo>, admins: map<(string, string), string>)
    : string -> Option<DatasetRow>
  {
    line => ParseCityRow(line, countries, admins)
  }

  /** The records of the kept lines, in line order: every accepted line gives
      one, and each comes from an accepted line. */
  function CityRows(lines: seq<string>, countries: map<string, CountryInfo>,
                    admins: map<(string, string), string>): (rows: seq<DatasetRow>)
    ensures |rows| <= |lines|
    ensures forall i :: 0 <= i < |lines| && ParseCityRow(lines[i], countries, admins).Some? ==>
              ParseCityRow(lines[i], countries, admins).value in rows
    ensures forall k :: 0 <= k < |rows| ==>
              exists i :: 0 <= i < |lines| && ParseCityRow(lines[i], countries, admins) == Some(rows[k])
  {
    KeptFacts(lines, CityParser(countries, admins), |lines|);
    Kept(lines, CityParser(countries, admins), |lines|)
  }

  /** A single line gives its record, or nothing. */
  lemma CityRowsOne(line: string, countries: map<string, CountryInfo>, admins: map<(string, string), string>)
    ensures CityRows([line], countries, admins)
              == (match ParseCityRow(line, countries, admins) case None => [] case Some(x) => [x])
  {
    assert Kept([line], CityParser(countries, admins), 0) == [];
  }

  /** The rows keep the line order and every repeat: the rows of a
      concatenation of lines are the rows of each part in turn. */
  lemma CityRowsConcat(a: seq<string>, b: seq<string>, countries: map<string, CountryInfo>,
                       admins: map<(string, string), string>)
    ensures CityRows(a + b, countries, admins) == CityRows(a, countries, admins) + CityRows(b, countries, admins)
  {
    KeptWhole(a, b, CityParser(countries, admins));
  }

  /** Every record of the dataset is well formed and comes from an accepted line. */
  lemma CityRowsSound(lines: seq<string>, countries: map<string, CountryInfo>,
                      admins: map<(string, string), string>, x: DatasetRow)
    requires x in CityRows(lines, countries, admins)
    ensures RowWf(x)
    ensures exists i :: 0 <= i < |lines| && ParseCityRow(lines[i], countries, admins) == Some(x)
  {
    var rows := CityRows(lines, countries, admins);
    var k := Position(rows, x);
    var i :| 0 <= i < |lines| && ParseCityRow(lines[i], countries, admins) == Some(rows[k]);
  }

  // ---------------------------------------------------------------------------
  // the sort

  /** Python's `<=` on strings: code point by code point, a proper prefix
      first. */
  predicate LexLe(a: string, b: string)
    decreases |a|
  {
    if |a| == 0 then true
    else if |b| == 0 then false
    else if a[0] != b[0] then a[0] < b[0]
    else LexLe(a[1..], b[1..])
  }

  lemma {:induction false} LexLeRefl(a: string)
    ensures LexLe(a, a)
  {
    if |a| > 0 {
      LexLeRefl(a[1..]);
    }
  }

  lemma {:induction false} LexLeTotal(a: string, b: string)
    ensures LexLe(a, b) || LexLe(b, a)
  {
    if |a| > 0 && |b| > 0 && a[0] == b[0] {
      LexLeTotal(a[1..], b[1..]);
    }
  }

  lemma {:induction false} LexLeAntisymmetric(a: string, b: string)
    requires LexLe(a, b) && LexLe(b, a)
    ensures a == b
  {
    if |a| > 0 {
      LexLeAntisymmetric(a[1..], b[1..]);
      assert a == [a[0]] + a[1..] && b == [b[0]] + b[1..];
    }
  }

  lemma {:induction false} LexLeTrans(a: string, b: string, c: string)
    requires LexLe(a, b) && LexLe(b, c)
    ensures LexLe(a, c)
  {
    if |a| > 0 && a[0] == b[0] && b[0] == c[0] {
      LexLeTrans(a[1..], b[1..], c[1..]);
    }
  }

  /** A prefix comes first. */
  lemma {:induction false} LexLePrefix(a: string, b: string)
    requires |a| <= |b| && a == b[..|a|]
    ensures LexLe(a, b)
  {
    if |a| > 0 {
      assert a[1..] == b[1..][..|a| - 1];
      LexLePrefix(a[1..], b[1..]);
    }
  }

  /** After a common prefix, the first differing code point decides. */
  lemma {:induction false} LexLeAtDiff(a: string, b: string, i: nat)
    requires i < |a| && i < |b| && a[..i] == b[..i] && a[i] != b[i]
    ensures LexLe(a, b) <==> a[i] < b[i]
  {
    if i > 0 {
      assert a[0] == a[..i][0] == b[..i][0] == b[0];
      assert a[1..][..i - 1] == a[..i][1..] && b[1..][..i - 1] == b[..i][1..];
      LexLeAtDiff(a[1..], b[1..], i - 1);
    }
  }

  /** Equal strings up to `i` and a smaller code point at `i`. */
  predicate SmallerAt(a: string, b: string, i: int) {
    0 <= i < |a| && i < |b| && a[..i] == b[..i] && a[i] < b[i]
  }

  /** The order by its usual definition: `a` is a prefix of `b`, or at the
      first position where they differ `a` has the smaller code point. */
  lemma {:induction false} LexLeIff(a: string, b: string)
    ensures LexLe(a, b) <==> (|a| <= |b| && a == b[..|a|]) || (exists i :: SmallerAt(a, b, i))
  {
    if |a| <= |b| && a == b[..|a|] {
      LexLePrefix(a, b);
    } else if exists i :: SmallerAt(a, b, i) {
      var i :| SmallerAt(a, b, i);
      LexLeAtDiff(a, b, i);
    } else if |a| > 0 && |b| > 0 && a[0] == b[0] {
      LexLeIff(a[1..], b[1..]);
      if exists j :: SmallerAt(a[1..], b[1..], j) {
        var j :| SmallerAt(a[1..], b[1..], j);
        assert a[..j + 1] == [a[0]] + a[1..][..j] && b[..j + 1] == [b[0]] + b[1..][..j];
        assert SmallerAt(a, b, j + 1);
      }
    } else if |a| > 0 && |b| > 0 && a[0] < b[0] {
      assert SmallerAt(a, b, 0);
    }
  }

  /** `f"{cityName}, {countryCode}".lower()` */
  function SortKey(r: DatasetRow): string {
    Lower(r.cityName + ", " + r.countryCode)
  }

  predicate Sorted(rows: seq<DatasetRow>) {
    forall i :: 0 <= i < |rows| - 1 ==> LexLe(SortKey(rows[i]), SortKey(rows[i + 1]))
  }

  /** The rows whose key is `k`, in order. */
  function WithKey(rows: seq<DatasetRow>, k: string): (r: seq<DatasetRow>)
    ensures forall x :: x in r ==> x in rows && SortKey(x) == k
  {
    if |rows| == 0 then []
    else (if SortKey(rows[0]) == k then [rows[0]] else []) + WithKey(rows[1..], k)
  }

  /** Places `r` before the first row whose key is not smaller than its own. */
  function Insert(r: DatasetRow, rows: seq<DatasetRow>): (s: seq<DatasetRow>)
    requires Sorted(rows)
    ensures Sorted(s)
    ensures multiset(s) == multiset(rows) + multiset{r}
    ensures |s| > 0 && (s[0] == r || (|rows| > 0 && s[0] == rows[0]))
  {
    if |rows| == 0 || LexLe(SortKey(r), SortKey(rows[0])) then [r] + rows
    else
      var t := Insert(r, rows[1..]);
      LexLeTotal(SortKey(r), SortKey(rows[0]));
      assert rows == [rows[0]] + rows[1..];
      [rows[0]] + t
  }

  /** Inserting is stable: `r` lands after every row whose key is smaller and
      before every row with its own key. */
  lemma {:induction false} InsertStable(r: DatasetRow, rows: seq<DatasetRow>, k: string)
    requires Sorted(rows)
    ensures WithKey(Insert(r, rows), k) ==
              (if SortKey(r) == k then [r] + WithKey(rows, k) else WithKey(rows, k))
  {
    var s := Insert(r, rows);
    if |rows| == 0 || LexLe(SortKey(r), SortKey(rows[0])) {
      assert s[1..] == rows;
    } else {
      InsertStable(r, rows[1..], k);
      assert s[1..] == Insert(r, rows[1..]);
      LexLeRefl(SortKey(r));
      assert SortKey(rows[0]) != SortKey(r);
    }
  }

  /** `rows.sort(key=...)`: a stable insertion sort. */
  function SortRows(rows: seq<DatasetRow>): (s: seq<DatasetRow>)
    ensures Sorted(s)
    ensures multiset(s) == multiset(rows)
  {
    if |rows| == 0 then []
    else
      assert rows == [rows[0]] + rows[1..];
      Insert(rows[0], SortRows(rows[1..]))
  }

  /** The sort keeps the input order among rows with equal keys. */
  lemma {:induction false} SortRowsStable(rows: seq<DatasetRow>, k: string)
    ensures WithKey(SortRows(rows), k) == WithKey(rows, k)
  {
    if |rows| > 0 {
      SortRowsStable(rows[1..], k);
      InsertStable(rows[0], SortRows(rows[1..]), k);
    }
  }

  /** Sorted by neighbours is sorted pairwise. */
  lemma {:induction false} SortedPairwise(rows: seq<DatasetRow>, i: nat, j: nat)
    requires Sorted(rows)
    requires i <= j < |rows|
    ensures LexLe(SortKey(rows[i]), SortKey(rows[j]))
    decreases j - i
  {
    if i == j {
      LexLeRefl(SortKey(rows[i]));
    } else {
      SortedPairwise(rows, i + 1, j);
      LexLeTrans(SortKey(rows[i]), SortKey(rows[i + 1]), SortKey(rows[j]));
    }
  }

  // ---------------------------------------------------------------------------
  // the build

  /** The rows `main` writes for the three downloaded files. */
  function BuildDataset(countryLines: seq<string>, admin1Lines: seq<string>,
                        cityLines: seq<string>): (rows: seq<DatasetRow>)
    ensures Sorted(rows)
    ensures multiset(rows) ==
              multiset(CityRows(cityLines, ParseCountryInfo(countryLines), ParseAdmin1Info(admin1Lines)))
  {
    SortRows(CityRows(cityLines, ParseCountryInfo(countryLines), ParseAdmin1Info(admin1Lines)))
  }

  /** A permutation has the same members. */
  lemma SameMembers<T>(a: seq<T>, b: seq<T>)
    requires multiset(a) == multiset(b)
    ensures forall x :: x in a <==> x in b
  {
    assert forall x :: x in a <==> x in multiset(a);
  }

  /** The record of every accepted city line is written. */
  lemma BuildDatasetComplete(countryLines: seq<string>, admin1Lines: seq<string>,
                             cityLines: seq<string>, i: nat)
    requires i < |cityLines|
    requires ParseCityRow(cityLines[i], ParseCountryInfo(countryLines), ParseAdmin1Info(admin1Lines)).Some?
    ensures ParseCityRow(cityLines[i], ParseCountryInfo(countryLines), ParseAdmin1Info(admin1Lines)).value
              in BuildDataset(countryLines, admin1Lines, cityLines)
  {
    var kept := CityRows(cityLines, ParseCountryInfo(countryLines), ParseAdmin1Info(admin1Lines));
    SameMembers(BuildDataset(countryLines, admin1Lines, cityLines), kept);
  }

  /** Every written row is well formed and is the record of an accepted line. */
  lemma BuildDatasetSound(countryLines: seq<string>, admin1Lines: seq<string>,
                          cityLines: seq<string>, x: DatasetRow)
    requires x in BuildDataset(countryLines, admin1Lines, cityLines)
    ensures RowWf(x)
    ensures exists i :: 0 <= i < |cityLines|
              && ParseCityRow(cityLines[i], ParseCountryInfo(countryLines), ParseAdmin1Info(admin1Lines)) == Some(x)
  {
    var kept := CityRows(cityLines, ParseCountryInfo(countryLines), ParseAdmin1Info(admin1Lines));
    SameMembers(BuildDataset(countryLines, admin1Lines, cityLines), kept);
    CityRowsSound(cityLines, ParseCountryInfo(countryLines), ParseAdmin1Info(admin1Lines), x);
  }

  /** Rows sharing a sort key keep the order of their lines. */
  lemma BuildDatasetStable(countryLines: seq<string>, admin1Lines: seq<string>,
                           cityLines: seq<string>, key: string)
    ensures WithKey(BuildDataset(countryLines, admin1Lines, cityLines), key)
            == WithKey(CityRows(cityLines, ParseCountryInfo(countryLines), ParseAdmin1Info(admin1Lines)), key)
  {
    SortRowsStable(CityRows(cityLines, ParseCountryInfo(countryLines), ParseAdmin1Info(admin1Lines)), key);
  }
}
