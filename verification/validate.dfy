/** The contract check of `validate_cities_v1.py`: every record of the city
    list must carry nine fields of the right shape; the checks of one record
    are all run and their failures reported together, and the run fails when
    any item fails. The IANA time-zone database is an oracle `zones`, the set
    of keys `ZoneInfo` accepts; the process-wide memo of lookups is threaded
    through the calls as a map. */
module ValidateCities {
  import opened Optional
  import opened PyText

  /** A value as `json.loads` returns it. Numbers with a fraction or an
      exponent are floats, modelled as finite reals. */
  datatype Json =
    | JNull
    | JBool(b: bool)
    | JInt(n: int)
    | JFloat(x: real)
    | JString(s: string)
    | JArray(items: seq<Json>)
    | JObject(fields: map<string, Json>)

  type Row = map<string, Json>

  /** `REQUIRED_FIELDS` */
  const RequiredFields: seq<string> :=
    ["id", "cityName", "countryCode", "timeZoneId", "currencyCode",
     "defaultUnitSystem", "defaultUse24h", "lat", "lon"]

  /** The fields that must be strings with non-whitespace content. */
  const TextFields: seq<string> := ["id", "cityName", "countryCode", "timeZoneId", "currencyCode"]

  /** `row.get(field)` */
  function Get(row: Row, field: string): Option<Json> {
    if field in row then Some(row[field]) else None
  }

  /** One failed check of a record, in the order the checks run. */
  datatype Check =
    | Missing(field: string)
    | Invalid(field: string)
    | NotAlpha2
    | NotAlpha3
    | UnknownZone
    | BadUnitSystem
    | BadUse24h
    | BadLatitude
    | BadLongitude

  // ---------------------------------------------------------------------
  // The time-zone memo

  type ZoneMemo = map<string, bool>

  /** Every remembered answer is the oracle's. */
  ghost predicate MemoSound(memo: ZoneMemo, zones: set<string>) {
    forall k :: k in memo ==> memo[k] == (k in zones)
  }

  /** `_is_known_timezone`: false for the empty key, otherwise the remembered
      answer, otherwise the oracle's answer, which is then remembered. */
  function IsKnownTimezone(zones: set<string>, memo: ZoneMemo, tz: string): (r: (bool, ZoneMemo))
    ensures tz == "" ==> !r.0
    ensures MemoSound(memo, zones) ==> r.0 == (tz != "" && tz in zones) && MemoSound(r.1, zones)
    ensures r.1.Keys == memo.Keys + (if tz == "" then {} else {tz})
    ensures forall k :: k in memo ==> r.1[k] == memo[k]
  {
    if tz == "" then (false, memo)
    else if tz in memo then (memo[tz], memo)
    else if tz in zones then (true, memo[tz := true])
    else (false, memo[tz := false])
  }

  /** Asking twice gives the same answer, and the second question leaves the
      memo as the first left it, whatever the memo held before. */
  lemma IsKnownTimezoneStable(zones: set<string>, memo: ZoneMemo, tz: string)
    ensures var (a, m) := IsKnownTimezone(zones, memo, tz); IsKnownTimezone(zones, m, tz) == (a, m)
  {
  }

  // ---------------------------------------------------------------------
  // The single checks

  /** `not isinstance(value, str) or not value.strip()` fails the field. */
  predicate NonBlankText(row: Row, field: string) {
    field in row && row[field].JString? && Strip(row[field].s) != ""
  }

  /** `str(value)` for the values whose text can decide a check: null, the
      booleans, integers and strings. The text of a finite float always holds
      a digit, and the text of a list or a dictionary opens with a bracket. */
  function ScalarText(v: Json): Option<string> {
    match v
    case JNull => Some("None")
    case JBool(b) => Some(if b then "True" else "False")
    case JInt(n) => Some(IntToString(n))
    case JString(s) => Some(s)
    case _ => None
  }

  /** `str(row.get(field, ""))`, when modelled. */
  function FieldText(row: Row, field: string): Option<string> {
    if field in row then ScalarText(row[field]) else Some("")
  }

  /** A full match of `^[A-Z]{n}$`. The text is stripped first, so the
      trailing newline `$` would tolerate is never there. */
  predicate UpperLetters(t: string, n: nat) {
    |t| == n && forall i :: 0 <= i < |t| ==> IsAsciiUpper(t[i])
  }

  /** The shape check of a code field on `str(value).strip().upper()`. A float,
      list or dictionary never passes: its text holds a digit or a bracket. */
  predicate CodeShape(row: Row, field: string, n: nat) {
    match FieldText(row, field)
    case Some(t) => UpperLetters(Upper(Strip(t)), n)
    case None => false
  }

  /** The key looked up for `timeZoneId`: `str(value).strip()`. `None` for a
      float, list or dictionary, whose text names no zone. */
  function ZoneKey(row: Row): Option<string> {
    match FieldText(row, "timeZoneId")
    case Some(t) => Some(Strip(t))
    case None => None
  }

  /** The time-zone check against the oracle alone. */
  predicate ZoneKnown(row: Row, zones: set<string>) {
    ZoneKey(row).Some? && ZoneKey(row).value != "" && ZoneKey(row).value in zones
  }

  /** The time-zone check through the memo. */
  function ZoneCheck(row: Row, zones: set<string>, memo: ZoneMemo): (r: (bool, ZoneMemo))
    ensures MemoSound(memo, zones) ==> r.0 == ZoneKnown(row, zones) && MemoSound(r.1, zones)
    ensures memo.Keys <= r.1.Keys
    ensures forall k :: k in memo ==> r.1[k] == memo[k]
  {
    match ZoneKey(row)
    case Some(k) => IsKnownTimezone(zones, memo, k)
    case None => (false, memo)
  }

  /** `unit_system in {"metric", "imperial"}` for a hashable value: only the
      two strings are members. */
  predicate UnitSystemOk(v: Option<Json>) {
    v == Some(JString("metric")) || v == Some(JString("imperial"))
  }

  /** `isinstance(value, bool)` */
  predicate Use24hOk(v: Option<Json>) {
    v.Some? && v.value.JBool?
  }

  /** `isinstance(v, (int, float)) and -bound <= float(v) <= bound`, booleans
      being integers. For an integer the comparison of its rounded value with
      the small bound agrees with the comparison of the integer itself. */
  predicate InRange(v: Option<Json>, bound: int) {
    match v
    case Some(JBool(b)) => -bound <= (if b then 1 else 0) <= bound
    case Some(JInt(n)) => -bound <= n <= bound
    case Some(JFloat(x)) => -bound as real <= x <= bound as real
    case _ => false
  }

  // ---------------------------------------------------------------------
  // One record

  /** The `missing` failures for `fields`, in order. */
  function MissingOf(fields: seq<string>, row: Row): (r: seq<Check>)
    ensures forall c :: c in r <==> c.Missing? && c.field in fields && c.field !in row
  {
    if |fields| == 0 then []
    else (if fields[0] in row then [] else [Missing(fields[0])]) + MissingOf(fields[1..], row)
  }

  /** The `invalid` failures for `fields`, in order. */
  function InvalidOf(fields: seq<string>, row: Row): (r: seq<Check>)
    ensures forall c :: c in r <==> c.Invalid? && c.field in fields && !NonBlankText(row, c.field)
  {
    if |fields| == 0 then []
    else (if NonBlankText(row, fields[0]) then [] else [Invalid(fields[0])]) + InvalidOf(fields[1..], row)
  }

  /** Whether check `c` fails on `row`, given the answer of the time-zone check. */
  predicate Fails(row: Row, zoneKnown: bool, c: Check) {
    match c
    case Missing(f) => f in RequiredFields && f !in row
    case Invalid(f) => f in TextFields && !NonBlankText(row, f)
    case NotAlpha2 => !CodeShape(row, "countryCode", 2)
    case NotAlpha3 => !CodeShape(row, "currencyCode", 3)
    case UnknownZone => !zoneKnown
    case BadUnitSystem => !UnitSystemOk(Get(row, "defaultUnitSystem"))
    case BadUse24h => !Use24hOk(Get(row, "defaultUse24h"))
    case BadLatitude => !InRange(Get(row, "lat"), 90)
    case BadLongitude => !InRange(Get(row, "lon"), 180)
  }

  function FailIf(failed: bool, c: Check): (r: seq<Check>)
    ensures forall d :: d in r <==> failed && d == c
  {
    if failed then [c] else []
  }

  /** The failures of the two code-shape checks, in order. */
  function ShapeFailures(row: Row): (r: seq<Check>)
    ensures forall c :: c in r <==> (c.NotAlpha2? || c.NotAlpha3?) && Fails(row, false, c)
  {
    FailIf(!CodeShape(row, "countryCode", 2), NotAlpha2)
    + FailIf(!CodeShape(row, "currencyCode", 3), NotAlpha3)
  }

  /** The failures of the time-zone, enumeration, boolean and range checks,
      in order, given whether each passed. */
  function ValueChecks(zoneOk: bool, unitOk: bool, use24hOk: bool, latOk: bool, lonOk: bool): seq<Check> {
    FailIf(!zoneOk, UnknownZone) + FailIf(!unitOk, BadUnitSystem) + FailIf(!use24hOk, BadUse24h)
    + FailIf(!latOk, BadLatitude) + FailIf(!lonOk, BadLongitude)
  }

  /** The failures of the time-zone, enumeration, boolean and range checks, in order. */
  function ValueFailures(row: Row, zoneKnown: bool): (r: seq<Check>)
    ensures forall c :: c in r <==>
              (c.UnknownZone? || c.BadUnitSystem? || c.BadUse24h? || c.BadLatitude? || c.BadLongitude?)
              && Fails(row, zoneKnown, c)
  {
    ValueChecks(zoneKnown, UnitSystemOk(Get(row, "defaultUnitSystem")), Use24hOk(Get(row, "defaultUse24h")),
                InRange(Get(row, "lat"), 90), InRange(Get(row, "lon"), 180))
  }

  /** Every failed check of a record, in the order `_validate_row` appends
      them: a check is listed exactly when it fails, whatever else fails. */
  function Failures(row: Row, zoneKnown: bool): (r: seq<Check>)
    ensures forall c :: c in r <==> Fails(row, zoneKnown, c)
  {
    var a := MissingOf(RequiredFields, row);
    var b := InvalidOf(TextFields, row);
    var c := ShapeFailures(row);
    var d := ValueFailures(row, zoneKnown);
    assert forall x :: x in a + b + c + d <==> x in a || x in b || x in c || x in d;
    a + b + c + d
  }

  /** The failed checks of a record, with the oracle answering directly. */
  function RowFailures(row: Row, zones: set<string>): seq<Check> {
    Failures(row, ZoneKnown(row, zones))
  }

  /** A unit system from the enumeration is not reported. */
  lemma UnitSystemPasses(row: Row, zones: set<string>)
    requires UnitSystemOk(Get(row, "defaultUnitSystem"))
    ensures BadUnitSystem !in RowFailures(row, zones)
  {
    assert !Fails(row, ZoneKnown(row, zones), BadUnitSystem);
  }

  /** A boolean clock flag is not reported. */
  lemma Use24hPasses(row: Row, zones: set<string>)
    requires Use24hOk(Get(row, "defaultUse24h"))
    ensures BadUse24h !in RowFailures(row, zones)
  {
    assert !Fails(row, ZoneKnown(row, zones), BadUse24h);
  }

  /** What the contract asks of a record, stated field by field. */
  predicate RowValid(row: Row, zones: set<string>) {
    && (forall f :: f in RequiredFields ==> f in row)
    && (forall f :: f in TextFields ==> NonBlankText(row, f))
    && CodeShape(row, "countryCode", 2)
    && CodeShape(row, "currencyCode", 3)
    && ZoneKnown(row, zones)
    && UnitSystemOk(Get(row, "defaultUnitSystem"))
    && Use24hOk(Get(row, "defaultUse24h"))
    && InRange(Get(row, "lat"), 90)
    && InRange(Get(row, "lon"), 180)
  }

  /** A record has no failures exactly when it meets the contract. */
  lemma RowFailuresEmpty(row: Row, zones: set<string>)
    ensures RowFailures(row, zones) == [] <==> RowValid(row, zones)
  {
    var fs := RowFailures(row, zones);
    if fs == [] {
      forall f | f in RequiredFields ensures f in row {
        assert Missing(f) !in fs;
      }
      forall f | f in TextFields ensures NonBlankText(row, f) {
        assert Invalid(f) !in fs;
      }
    } else {
      var c := fs[0];
      assert c in fs;
      if c.Missing? {
        assert c.field in RequiredFields && c.field !in row;
      } else if c.Invalid? {
        assert c.field in TextFields && !NonBlankText(row, c.field);
      }
    }
  }

  /** A failure of one record: its index, its `id` value if any, and the
      failed checks the message lists, in order. */
  datatype RowError = RowError(index: nat, id: Option<Json>, failures: seq<Check>)

  datatype Validated = Validated(errors: seq<RowError>, memo: ZoneMemo)

  /** `_validate_row`: no error for a record that passes every check,
      otherwise one error listing every failed check. These are the corrected
      checks: where the code as written raises (a list or dict unit system, an
      integer coordinate beyond the float range) this reports a failure;
      `FailuresAsWritten` models the code as written. */
  function ValidateRow(row: Row, idx: nat, zones: set<string>, memo: ZoneMemo): (r: Validated)
    ensures |r.errors| <= 1
    ensures MemoSound(memo, zones) ==> MemoSound(r.memo, zones)
    ensures MemoSound(memo, zones) ==> (r.errors == [] <==> RowValid(row, zones))
    ensures MemoSound(memo, zones) && r.errors != [] ==>
              r.errors[0] == RowError(idx, Get(row, "id"), RowFailures(row, zones))
    ensures memo.Keys <= r.memo.Keys
    ensures forall k :: k in memo ==> r.memo[k] == memo[k]
  {
    var (known, memo') := ZoneCheck(row, zones, memo);
    var fs := Failures(row, known);
    RowFailuresEmpty(row, zones);
    Validated(if fs == [] then [] else [RowError(idx, Get(row, "id"), fs)], memo')
  }

  /** The generator's output shape: without coordinates a record always fails,
      and the failure names each missing coordinate. */
  lemma MissingCoordinateFails(row: Row, zones: set<string>)
    requires "lat" !in row || "lon" !in row
    ensures !RowValid(row, zones)
    ensures "lat" !in row ==> Missing("lat") in RowFailures(row, zones)
    ensures "lon" !in row ==> Missing("lon") in RowFailures(row, zones)
  {
    var zk := ZoneKnown(row, zones);
    assert RequiredFields[7] == "lat" && RequiredFields[8] == "lon";
    if "lat" !in row {
      assert Fails(row, zk, Missing("lat"));
    }
    if "lon" !in row {
      assert Fails(row, zk, Missing("lon"));
    }
  }

  /** The text of an integer ends in a digit, which upper-casing keeps. */
  lemma IntTextNotLetters(k: int, n: nat)
    ensures !UpperLetters(Upper(Strip(IntToString(k))), n)
  {
    var t := IntToString(k);
    var st := Strip(t);
    assert !IsSpace(t[|t| - 1]);
    assert StripEnd(t) == |t|;
    if |st| > 0 {
      assert st[|st| - 1] == t[|t| - 1];
      assert !IsAsciiUpper(Upper(st)[|st| - 1]);
    }
  }

  /** The texts of null and the booleans have four or five letters. */
  lemma WordTextLength(w: string)
    requires w == "None" || w == "True" || w == "False"
    ensures |Upper(Strip(w))| == |w| >= 4
  {
    StripTrimmed(w);
  }

  /** A code passes its shape check only when it is a string: null, a boolean
      or an integer print as text of the wrong length or with digits. */
  lemma CodeShapeNeedsText(row: Row, field: string, n: nat)
    requires n == 2 || n == 3
    requires CodeShape(row, field, n)
    ensures field in row && row[field].JString?
  {
    if field in row {
      match row[field]
      case JNull => WordTextLength("None");
      case JBool(b) => WordTextLength(if b then "True" else "False");
      case JInt(k) => IntTextNotLetters(k, n);
      case JString(_) =>
      case JFloat(_) =>
      case JArray(_) =>
      case JObject(_) =>
    }
  }

  /** The alpha-2 shape is judged after upper-casing: "us" passes and "USA" does not. */
  lemma CountryCodeShapeExamples()
    ensures CodeShape(map["countryCode" := JString("us")], "countryCode", 2)
    ensures !CodeShape(map["countryCode" := JString("USA")], "countryCode", 2)
  {
    LowerAlpha2Passes();
    Alpha3IsNotAlpha2();
  }

  lemma LowerAlpha2Passes()
    ensures CodeShape(map["countryCode" := JString("us")], "countryCode", 2)
  {
    StripTrimmed("us");
  }

  lemma Alpha3IsNotAlpha2()
    ensures !CodeShape(map["countryCode" := JString("USA")], "countryCode", 2)
  {
    StripTrimmed("USA");
  }

  // ---------------------------------------------------------------------
  // The run over the whole list

  /** One reported problem of a run. */
  datatype Problem = NotAnObject(at: nat) | BadRow(error: RowError)

  function ProblemIndex(p: Problem): nat {
    match p
    case NotAnObject(i) => i
    case BadRow(e) => e.index
  }

  /** What the item at `idx` contributes to the report, judged by the oracle. */
  function ItemProblem(item: Json, idx: nat, zones: set<string>): (r: Option<Problem>)
    ensures r.Some? ==> ProblemIndex(r.value) == idx
  {
    match item
    case JObject(row) =>
      var fs := RowFailures(row, zones);
      if fs == [] then None else Some(BadRow(RowError(idx, Get(row, "id"), fs)))
    case _ => Some(NotAnObject(idx))
  }

  /** What each item contributes to the report, judged by the oracle. */
  function Verdicts(items: seq<Json>, zones: set<string>): (vs: seq<Option<Problem>>)
    ensures |vs| == |items|
    ensures forall i :: 0 <= i < |vs| ==> vs[i] == ItemProblem(items[i], i, zones)
  {
    seq(|items|, i requires 0 <= i < |items| => ItemProblem(items[i], i, zones))
  }

  /** Every verdict about item `i` is a problem located at `i`. */
  ghost predicate Located(vs: seq<Option<Problem>>) {
    forall i :: 0 <= i < |vs| && vs[i].Some? ==> ProblemIndex(vs[i].value) == i
  }

  /** A verdict as a list of at most one problem. */
  function Listed(v: Option<Problem>): seq<Problem> {
    match v
    case None => []
    case Some(p) => [p]
  }

  /** The problems among the first `n` verdicts, in item order. */
  function Collect(vs: seq<Option<Problem>>, n: nat): (ps: seq<Problem>)
    requires n <= |vs| && Located(vs)
    ensures forall k :: 0 <= k < |ps| ==> ProblemIndex(ps[k]) < n && vs[ProblemIndex(ps[k])] == Some(ps[k])
    ensures forall k, l :: 0 <= k < l < |ps| ==> ProblemIndex(ps[k]) < ProblemIndex(ps[l])
    ensures forall i :: 0 <= i < n && vs[i].Some? ==> vs[i].value in ps
  {
    GatherFacts(vs, n);
    Gather(vs, n)
  }

  /** The problems among the first `n` verdicts, gathered one verdict at a time. */
  function Gather(vs: seq<Option<Problem>>, n: nat): seq<Problem>
    requires n <= |vs|
  {
    if n == 0 then [] else Gather(vs, n - 1) + Listed(vs[n - 1])
  }

  lemma GatherFacts(vs: seq<Option<Problem>>, n: nat)
    requires n <= |vs| && Located(vs)
    ensures var ps := Gather(vs, n);
      && (forall k :: 0 <= k < |ps| ==> ProblemIndex(ps[k]) < n && vs[ProblemIndex(ps[k])] == Some(ps[k]))
      && (forall k, l :: 0 <= k < l < |ps| ==> ProblemIndex(ps[k]) < ProblemIndex(ps[l]))
      && (forall i :: 0 <= i < n && vs[i].Some? ==> vs[i].value in ps)
  {
    GatherLocated(vs, n);
    GatherOrdered(vs, n);
    GatherComplete(vs, n);
  }

  /** Each gathered problem is the verdict at its own index, below `n`. */
  lemma {:induction false} GatherLocated(vs: seq<Option<Problem>>, n: nat)
    requires n <= |vs| && Located(vs)
    ensures forall k :: 0 <= k < |Gather(vs, n)| ==>
      ProblemIndex(Gather(vs, n)[k]) < n && vs[ProblemIndex(Gather(vs, n)[k])] == Some(Gather(vs, n)[k])
  {
    if n > 0 {
      GatherLocated(vs, n - 1);
      var prev, ps := Gather(vs, n - 1), Gather(vs, n);
      assert ps == prev + Listed(vs[n - 1]);
      forall k | 0 <= k < |ps|
        ensures ProblemIndex(ps[k]) < n && vs[ProblemIndex(ps[k])] == Some(ps[k])
      {
        if k < |prev| {
          assert ps[k] == prev[k];
        } else {
          assert vs[n - 1].Some? && ps[k] == vs[n - 1].value;
        }
      }
    }
  }

  /** The gathered problems are in strictly increasing index order. */
  lemma {:induction false} GatherOrdered(vs: seq<Option<Problem>>, n: nat)
    requires n <= |vs| && Located(vs)
    ensures forall k, l :: 0 <= k < l < |Gather(vs, n)| ==> ProblemIndex(Gather(vs, n)[k]) < ProblemIndex(Gather(vs, n)[l])
  {
    if n > 0 {
      GatherOrdered(vs, n - 1);
      GatherLocated(vs, n - 1);
      var prev, ps := Gather(vs, n - 1), Gather(vs, n);
      assert ps == prev + Listed(vs[n - 1]);
      forall k, l | 0 <= k < l < |ps| ensures ProblemIndex(ps[k]) < ProblemIndex(ps[l]) {
        assert ps[k] == prev[k];
        if l >= |prev| {
          assert vs[n - 1].Some? && ps[l] == vs[n - 1].value;
          assert ProblemIndex(ps[l]) == n - 1;
        }
      }
    }
  }

  /** No problem among the first `n` verdicts is left out. */
  lemma {:induction false} GatherComplete(vs: seq<Option<Problem>>, n: nat)
    requires n <= |vs|
    ensures forall i :: 0 <= i < n && vs[i].Some? ==> vs[i].value in Gather(vs, n)
  {
    if n > 0 {
      GatherComplete(vs, n - 1);
    }
  }

  /** Every problem of the list, in item order. */
  function Problems(items: seq<Json>, zones: set<string>): seq<Problem> {
    Collect(Verdicts(items, zones), |items|)
  }

  /** Item by item, the oracle's shares add up to the problems of the list. */
  lemma ExpectedIsCollect(items: seq<Json>, zones: set<string>, n: nat)
    requires n <= |items|
    ensures Expected(items, n, OracleShare(zones)) == Collect(Verdicts(items, zones), n)
  {
    var vs := Verdicts(items, zones);
    VerdictsLocated(items, zones);
    forall i | 0 <= i < |items| ensures OracleShare(zones)(items[i], i) == Listed(vs[i]) {
      assert vs[i] == ItemProblem(items[i], i, zones);
    }
    SharesCollect(items, OracleShare(zones), vs, n);
  }

  lemma VerdictsLocated(items: seq<Json>, zones: set<string>)
    ensures Located(Verdicts(items, zones))
  {
    var vs := Verdicts(items, zones);
    forall i | 0 <= i < |vs| && vs[i].Some? ensures ProblemIndex(vs[i].value) == i {
      assert vs[i] == ItemProblem(items[i], i, zones);
    }
  }

  /** When each item's share is the listing of its verdict, the shares of the
      first `n` items add up to the problems among the first `n` verdicts. */
  lemma {:induction false} SharesCollect(items: seq<Json>, share: (Json, nat) -> seq<Problem>,
                                         vs: seq<Option<Problem>>, n: nat)
    requires n <= |items| == |vs|
    requires forall i :: 0 <= i < |items| ==> share(items[i], i) == Listed(vs[i])
    ensures Expected(items, n, share) == Gather(vs, n)
  {
    if n > 0 {
      SharesCollect(items, share, vs, n - 1);
    }
  }

  /** A record with failures is reported with all of them. */
  lemma ObjectProblem(item: Json, row: Row, idx: nat, zones: set<string>)
    requires item == JObject(row) && RowFailures(row, zones) != []
    ensures ItemProblem(item, idx, zones) == Some(BadRow(RowError(idx, Get(row, "id"), RowFailures(row, zones))))
  {
  }

  /** When the first item has a problem, it is the first problem of the list. */
  lemma FirstProblem(items: seq<Json>, zones: set<string>)
    requires |items| > 0 && ItemProblem(items[0], 0, zones).Some?
    ensures Problems(items, zones) != []
    ensures Problems(items, zones)[0] == ItemProblem(items[0], 0, zones).value
  {
    var vs := Verdicts(items, zones);
    assert vs[0] == ItemProblem(items[0], 0, zones);
    GatherHead(vs, |items|);
    assert Problems(items, zones) == Gather(vs, |items|);
  }

  /** A problem at the first verdict is the first one gathered. */
  lemma {:induction false} GatherHead(vs: seq<Option<Problem>>, n: nat)
    requires 0 < n <= |vs| && vs[0].Some?
    ensures Gather(vs, n) != [] && Gather(vs, n)[0] == vs[0].value
  {
    if n > 1 {
      GatherHead(vs, n - 1);
    }
  }

  /** When the first item has a problem, the check fails and shows it first. */
  lemma FirstShown(raw: Json, zones: set<string>)
    requires raw.JArray? && |raw.items| > 0 && ItemProblem(raw.items[0], 0, zones).Some?
    ensures Validate(raw, zones).Failed?
    ensures Validate(raw, zones).shown[0] == ItemProblem(raw.items[0], 0, zones).value
  {
    FirstProblem(raw.items, zones);
    ValidateSpec(raw, zones);
    ItemProblemNone(raw.items[0], 0, zones);
  }

  /** An item has no problem exactly when it is a record meeting the contract. */
  lemma ItemProblemNone(item: Json, idx: nat, zones: set<string>)
    ensures ItemProblem(item, idx, zones).None? <==> item.JObject? && RowValid(item.fields, zones)
  {
    if item.JObject? {
      RowFailuresEmpty(item.fields, zones);
    }
  }

  /** A list has no problems exactly when every item is a record meeting the contract. */
  lemma ProblemsEmpty(items: seq<Json>, zones: set<string>)
    ensures Problems(items, zones) == [] <==>
              forall i :: 0 <= i < |items| ==> items[i].JObject? && RowValid(items[i].fields, zones)
  {
    var vs := Verdicts(items, zones);
    var ps := Collect(vs, |items|);
    if ps == [] {
      forall i | 0 <= i < |items| ensures items[i].JObject? && RowValid(items[i].fields, zones) {
        assert vs[i].None?;
        ItemProblemNone(items[i], i, zones);
      }
    } else {
      var i := ProblemIndex(ps[0]);
      assert vs[i].Some?;
      ItemProblemNone(items[i], i, zones);
    }
  }

  /** What one step of the loop appends. */
  function StepProblems(item: Json, idx: nat, zones: set<string>, memo: ZoneMemo): (r: (seq<Problem>, ZoneMemo))
  {
    match item
    case JObject(row) =>
      var v := ValidateRow(row, idx, zones, memo);
      (seq(|v.errors|, k requires 0 <= k < |v.errors| => BadRow(v.errors[k])), v.memo)
    case _ => ([NotAnObject(idx)], memo)
  }

  /** With a sound memo a step appends exactly the oracle's verdict and keeps the memo sound. */
  lemma StepMatchesOracle(item: Json, idx: nat, zones: set<string>, memo: ZoneMemo)
    requires MemoSound(memo, zones)
    ensures StepProblems(item, idx, zones, memo).0 == Listed(ItemProblem(item, idx, zones))
    ensures MemoSound(StepProblems(item, idx, zones, memo).1, zones)
  {
    if item.JObject? {
      ObjectStep(item.fields, idx, zones, memo);
    }
  }

  lemma ObjectStep(row: Row, idx: nat, zones: set<string>, memo: ZoneMemo)
    requires MemoSound(memo, zones)
    ensures StepProblems(JObject(row), idx, zones, memo).0 == Listed(ItemProblem(JObject(row), idx, zones))
  {
    var v := ValidateRow(row, idx, zones, memo);
    var ps := StepProblems(JObject(row), idx, zones, memo).0;
    RowFailuresEmpty(row, zones);
    if v.errors == [] {
      assert ps == [];
    } else {
      assert ps == [BadRow(v.errors[0])];
    }
  }

  /** One step of the loop of `main` for a given oracle. */
  function RowStep(zones: set<string>): (Json, nat, ZoneMemo) -> (seq<Problem>, ZoneMemo) {
    (item: Json, idx: nat, memo: ZoneMemo) => StepProblems(item, idx, zones, memo)
  }

  /** The loop of `main` over the first `n` items, threading the memo through `step`. */
  function Fold(items: seq<Json>, memo: ZoneMemo, n: nat, step: (Json, nat, ZoneMemo) -> (seq<Problem>, ZoneMemo)): (seq<Problem>, ZoneMemo)
    requires n <= |items|
  {
    if n == 0 then ([], memo)
    else
      var prev := Fold(items, memo, n - 1, step);
      var next := step(items[n - 1], n - 1, prev.1);
      (prev.0 + next.0, next.1)
  }

  /** The problems the first `n` items yield when item `i` contributes `share(items[i], i)`. */
  function Expected(items: seq<Json>, n: nat, share: (Json, nat) -> seq<Problem>): seq<Problem>
    requires n <= |items|
  {
    if n == 0 then [] else Expected(items, n - 1, share) + share(items[n - 1], n - 1)
  }

  /** A loop whose every step, from a memo satisfying `inv`, appends what
      `share` says and keeps `inv`, reports `Expected` and ends satisfying `inv`. */
  lemma {:induction false} FoldAgrees(items: seq<Json>, memo: ZoneMemo, n: nat,
                                      step: (Json, nat, ZoneMemo) -> (seq<Problem>, ZoneMemo),
                                      share: (Json, nat) -> seq<Problem>, inv: ZoneMemo -> bool)
    requires n <= |items| && inv(memo)
    requires forall item, idx, m :: inv(m) ==> step(item, idx, m).0 == share(item, idx) && inv(step(item, idx, m).1)
    ensures Fold(items, memo, n, step).0 == Expected(items, n, share)
    ensures inv(Fold(items, memo, n, step).1)
  {
    if n > 0 {
      FoldAgrees(items, memo, n - 1, step, share, inv);
    }
  }

  function OracleShare(zones: set<string>): (Json, nat) -> seq<Problem> {
    (item: Json, idx: nat) => Listed(ItemProblem(item, idx, zones))
  }

  /** Starting from a sound memo, the loop reports exactly what the oracle
      alone would, and leaves a sound memo: remembering answers never changes one. */
  lemma LoopMatchesOracle(items: seq<Json>, zones: set<string>, memo: ZoneMemo, n: nat)
    requires n <= |items|
    requires MemoSound(memo, zones)
    ensures Fold(items, memo, n, RowStep(zones)).0 == Expected(items, n, OracleShare(zones))
    ensures MemoSound(Fold(items, memo, n, RowStep(zones)).1, zones)
  {
    var inv := m => MemoSound(m, zones);
    forall item, idx, m | inv(m)
      ensures RowStep(zones)(item, idx, m).0 == OracleShare(zones)(item, idx) && inv(RowStep(zones)(item, idx, m).1)
    {
      StepMatchesOracle(item, idx, zones, m);
    }
    FoldAgrees(items, memo, n, RowStep(zones), OracleShare(zones), inv);
  }

  /** The outcome of `main`: the input is not a list, or the run failed and
      shows its first problems, or it passed and counts the records. */
  datatype Outcome = NotAList | Failed(shown: seq<Problem>) | Passed(records: nat)

  /** At most this many problems are shown. */
  const ShownLimit: nat := 50

  /** `main` after reading the file, starting from the empty memo. It judges
      rows by the corrected checks, so a row on which the code as written
      raises is reported here instead; `FailuresAsWritten` models the code as
      written. */
  function Validate(raw: Json, zones: set<string>): (o: Outcome)
    ensures o.NotAList? <==> !raw.JArray?
    ensures o.Passed? ==> o.records == |raw.items|
    ensures o.Failed? ==> 1 <= |o.shown| <= 50
  {
    match raw
    case JArray(items) =>
      var ps := Fold(items, map[], |items|, RowStep(zones)).0;
      if ps == [] then Passed(|items|)
      else Failed(ps[..if |ps| < ShownLimit then |ps| else ShownLimit])
    case _ => NotAList
  }

  /** A list passes exactly when every item is a record meeting the contract;
      otherwise the run shows the first problems, up to fifty, in item order. */
  lemma ValidateSpec(raw: Json, zones: set<string>)
    requires raw.JArray?
    ensures Validate(raw, zones).Passed? <==>
              forall i :: 0 <= i < |raw.items| ==> raw.items[i].JObject? && RowValid(raw.items[i].fields, zones)
    ensures Validate(raw, zones).Failed? ==>
              var ps := Problems(raw.items, zones);
              Validate(raw, zones).shown == ps[..if |ps| < 50 then |ps| else 50]
  {
    LoopMatchesOracle(raw.items, zones, map[], |raw.items|);
    ExpectedIsCollect(raw.items, zones, |raw.items|);
    ProblemsEmpty(raw.items, zones);
  }

  // ---------------------------------------------------------------------
  // Two inputs on which the checks raise instead of reporting

  function Pow2(k: nat): (r: nat)
    ensures r >= 1
  {
    if k == 0 then 1 else 2 * Pow2(k - 1)
  }

  lemma {:induction false} Pow2Exceeds(k: nat)
    ensures Pow2(k) > k
  {
    if k > 0 {
      Pow2Exceeds(k - 1);
    }
  }

  /** The least magnitude of an integer that `float()` rounds past the largest
      double, 2^1024 - 2^970, at which it raises `OverflowError`. */
  function FloatOverflow(): int {
    Pow2(1024) - Pow2(970)
  }

  /** A value that a set membership test cannot hash: a list or a dictionary. */
  predicate Unhashable(v: Option<Json>) {
    v.Some? && (v.value.JArray? || v.value.JObject?)
  }

  /** An integer that `float()` cannot convert. */
  predicate OverflowsFloat(v: Option<Json>) {
    v.Some? && v.value.JInt? && (v.value.n >= FloatOverflow() || v.value.n <= -FloatOverflow())
  }

  /** `unit_system not in {"metric", "imperial"}` as written: membership in a
      set hashes the value, and a list or a dictionary raises `TypeError`.
      `None` stands for the uncaught exception. */
  function UnitSystemAsWritten(v: Option<Json>): (r: Option<bool>)
    ensures r.None? <==> v.Some? && (v.value.JArray? || v.value.JObject?)
  {
    match v
    case Some(JArray(_)) => None
    case Some(JObject(_)) => None
    case _ => Some(UnitSystemOk(v))
  }

  /** The coordinate check as written: `float(v)` of an integer too large for
      a double raises `OverflowError`. */
  function InRangeAsWritten(v: Option<Json>, bound: int): (r: Option<bool>)
    ensures r.None? <==> v.Some? && v.value.JInt? && (v.value.n >= FloatOverflow() || v.value.n <= -FloatOverflow())
  {
    match v
    case Some(JInt(n)) =>
      if n >= FloatOverflow() || n <= -FloatOverflow() then None else Some(-bound <= n <= bound)
    case _ => Some(InRange(v, bound))
  }

  /** The failures of a record as `_validate_row` computes them, or `None`
      when one of the two checks above raises. */
  function FailuresAsWritten(row: Row, zoneKnown: bool): (r: Option<seq<Check>>)
    ensures r.None? <==>
      || Unhashable(Get(row, "defaultUnitSystem"))
      || OverflowsFloat(Get(row, "lat"))
      || OverflowsFloat(Get(row, "lon"))
    ensures r.Some? ==> MissingOf(RequiredFields, row) <= r.value
  {
    var unit := UnitSystemAsWritten(Get(row, "defaultUnitSystem"));
    var lat := InRangeAsWritten(Get(row, "lat"), 90);
    var lon := InRangeAsWritten(Get(row, "lon"), 180);
    if unit.None? || lat.None? || lon.None? then None
    else
      Some(MissingOf(RequiredFields, row) + InvalidOf(TextFields, row) + ShapeFailures(row)
           + ValueChecks(zoneKnown, unit.value, Use24hOk(Get(row, "defaultUse24h")), lat.value, lon.value))
  }

  /** Whenever the code as written does not raise, it reports what the
      corrected checks report. */
  lemma FailuresAsWrittenAgree(row: Row, zoneKnown: bool)
    requires FailuresAsWritten(row, zoneKnown).Some?
    ensures FailuresAsWritten(row, zoneKnown).value == Failures(row, zoneKnown)
  {
    assert UnitSystemAsWritten(Get(row, "defaultUnitSystem")).value == UnitSystemOk(Get(row, "defaultUnitSystem"));
    assert InRangeAsWritten(Get(row, "lat"), 90).value == InRange(Get(row, "lat"), 90);
    assert InRangeAsWritten(Get(row, "lon"), 180).value == InRange(Get(row, "lon"), 180);
  }

  /** A list as `defaultUnitSystem` makes the code as written raise, where the
      corrected check reports `invalid defaultUnitSystem`. */
  lemma UnitSystemListRaises()
    ensures FailuresAsWritten(map["defaultUnitSystem" := JArray([])], true).None?
    ensures BadUnitSystem in Failures(map["defaultUnitSystem" := JArray([])], true)
  {
    assert Fails(map["defaultUnitSystem" := JArray([])], true, BadUnitSystem);
  }

  /** The integer 2^1024 as `lat` makes the code as written raise, where the
      corrected check reports `invalid latitude`. */
  lemma HugeLatitudeRaises()
    ensures FailuresAsWritten(map["lat" := JInt(Pow2(1024))], true).None?
    ensures BadLatitude in Failures(map["lat" := JInt(Pow2(1024))], true)
  {
    var row := map["lat" := JInt(Pow2(1024))];
    assert Get(row, "lat") == Some(JInt(Pow2(1024)));
    assert FailuresAsWritten(row, true).None? by {
      assert InRangeAsWritten(Get(row, "lat"), 90).None?;
    }
    assert BadLatitude in Failures(row, true) by {
      Pow2Exceeds(1024);
      assert Fails(row, true, BadLatitude);
    }
  }
}
