/** `_best_capital_match` of generate_cities_v1.py: find the row of a
    country's capital among the cities of one dump. The matching is written
    for any key function `key`; the generator uses `Norm`. */
module CapitalMatch {
  import opened Optional
  import opened Normalize
  import opened GeoNames

  /** The official or ASCII name of the row has the given key. */
  predicate ExactHit(key: string -> string, r: GeoRow, cc: string, k: string) {
    r.country == cc && (key(r.name) == k || key(r.asciiname) == k)
  }

  /** `r.alternates[:80]` */
  function FirstAlternates(alternates: seq<string>): (r: seq<string>)
    ensures |r| == (if |alternates| < 80 then |alternates| else 80)
    ensures r == alternates[..|r|]
  {
    if |alternates| <= 80 then alternates else alternates[..80]
  }

  /** One of the first 80 alternate names has a key in the variant set. */
  predicate AlternateHit(key: string -> string, r: GeoRow, cc: string, keys: set<string>) {
    r.country == cc && exists a :: a in FirstAlternates(r.alternates) && key(a) in keys
  }

  /** The test of the exact phase for one variant key `k`. */
  function ExactTest(key: string -> string, cc: string, k: string): GeoRow -> bool {
    r => ExactHit(key, r, cc, k)
  }

  /** The test of the alternate-name fallback for the variant set. */
  function AlternateTest(key: string -> string, cc: string, keys: set<string>): GeoRow -> bool {
    r => AlternateHit(key, r, cc, keys)
  }

  /** Row `i` is the first of the rows before `n` that pass `hit` with the
      greatest population: no hit before `n` has more, and every hit before
      `i` has less. */
  ghost predicate FirstMax(hit: GeoRow -> bool, rows: seq<GeoRow>, i: nat, n: nat) {
    && i < n <= |rows|
    && hit(rows[i])
    && (forall j :: 0 <= j < n && hit(rows[j]) ==> rows[j].population <= rows[i].population)
    && (forall j :: 0 <= j < i && hit(rows[j]) ==> rows[j].population < rows[i].population)
  }

  /** The loop `if best is None or r.population > best.population: best = r`
      from position `i` on, `best` being its state after the rows before `i`. */
  function ScanBest(hit: GeoRow -> bool, rows: seq<GeoRow>, i: nat, best: Option<nat>): (r: Option<nat>)
    requires i <= |rows|
    requires best.None? ==> forall j :: 0 <= j < i ==> !hit(rows[j])
    requires best.Some? ==> FirstMax(hit, rows, best.value, i)
    ensures r.None? ==> forall j :: 0 <= j < |rows| ==> !hit(rows[j])
    ensures r.Some? ==> FirstMax(hit, rows, r.value, |rows|)
    decreases |rows| - i
  {
    if i == |rows| then best
    else
      var better := hit(rows[i]) && (best.None? || rows[i].population > rows[best.value].population);
      ScanBest(hit, rows, i + 1, if better then Some(i) else best)
  }

  /** The position of the most populous row passing `hit`, the earliest one on a tie. */
  function MostPopulous(hit: GeoRow -> bool, rows: seq<GeoRow>): (r: Option<nat>)
    ensures r.None? <==> forall j :: 0 <= j < |rows| ==> !hit(rows[j])
    ensures r.Some? ==> FirstMax(hit, rows, r.value, |rows|)
  {
    ScanBest(hit, rows, 0, None)
  }

  /** At most one row is the first most populous hit, so the scan's answer is
      the only one the description admits. */
  lemma FirstMaxUnique(hit: GeoRow -> bool, rows: seq<GeoRow>, i1: nat, i2: nat)
    requires FirstMax(hit, rows, i1, |rows|) && FirstMax(hit, rows, i2, |rows|)
    ensures i1 == i2
  {
  }

  /** Some row of the country matches some variant exactly. */
  ghost predicate AnyExact(key: string -> string, rows: seq<GeoRow>, cc: string, variants: seq<string>) {
    exists v, j :: v in variants && 0 <= j < |rows| && ExactHit(key, rows[j], cc, v)
  }

  /** Variant `k` is the first, in the order tried, that some row matches exactly. */
  ghost predicate FirstMatchedVariant(key: string -> string, rows: seq<GeoRow>, cc: string, variants: seq<string>, k: nat) {
    && k < |variants|
    && (exists j :: 0 <= j < |rows| && ExactHit(key, rows[j], cc, variants[k]))
    && forall k', j :: 0 <= k' < k && 0 <= j < |rows| ==> !ExactHit(key, rows[j], cc, variants[k'])
  }

  function AsSet(variants: seq<string>): (s: set<string>)
    ensures forall v :: v in s <==> v in variants
  {
    set v | v in variants
  }

  /** The exact phase over the variants from position `k` on, then the
      fallback over alternate names. */
  function TryVariants(key: string -> string, rows: seq<GeoRow>, cc: string, variants: seq<string>, k: nat): (r: Option<GeoRow>)
    requires k <= |variants|
    requires forall k', j :: 0 <= k' < k && 0 <= j < |rows| ==> !ExactHit(key, rows[j], cc, variants[k'])
    ensures AnyExact(key, rows, cc, variants) ==>
      exists k': nat, i: nat :: FirstMatchedVariant(key, rows, cc, variants, k')
                      && FirstMax(ExactTest(key, cc, variants[k']), rows, i, |rows|) && r == Some(rows[i])
    ensures !AnyExact(key, rows, cc, variants) ==>
      r == (match MostPopulous(AlternateTest(key, cc, AsSet(variants)), rows)
            case None => None
            case Some(i) => Some(rows[i]))
    decreases |variants| - k
  {
    if k == |variants| then
      NoneExact(key, rows, cc, variants);
      match MostPopulous(AlternateTest(key, cc, AsSet(variants)), rows)
      case None => None
      case Some(i) => Some(rows[i])
    else
      match MostPopulous(ExactTest(key, cc, variants[k]), rows)
      case Some(i) =>
        FirstMatched(key, rows, cc, variants, k, i);
        Some(rows[i])
      case None =>
        NoExactAt(key, rows, cc, variants, k);
        TryVariants(key, rows, cc, variants, k + 1)
  }

  /** No variant matched exactly: there is no exact match at all. */
  lemma NoneExact(key: string -> string, rows: seq<GeoRow>, cc: string, variants: seq<string>)
    requires forall k', j :: 0 <= k' < |variants| && 0 <= j < |rows| ==> !ExactHit(key, rows[j], cc, variants[k'])
    ensures !AnyExact(key, rows, cc, variants)
  {
  }

  /** The exact scan for variant `k` found nothing: no row matches it exactly. */
  lemma NoExactAt(key: string -> string, rows: seq<GeoRow>, cc: string, variants: seq<string>, k: nat)
    requires k < |variants|
    requires forall k', j :: 0 <= k' < k && 0 <= j < |rows| ==> !ExactHit(key, rows[j], cc, variants[k'])
    requires MostPopulous(ExactTest(key, cc, variants[k]), rows).None?
    ensures forall k', j :: 0 <= k' < k + 1 && 0 <= j < |rows| ==> !ExactHit(key, rows[j], cc, variants[k'])
  {
    forall j | 0 <= j < |rows| ensures !ExactHit(key, rows[j], cc, variants[k]) {
      assert !ExactTest(key, cc, variants[k])(rows[j]);
    }
  }

  /** The exact scan for variant `k` found row `i`, and no earlier variant matched. */
  lemma FirstMatched(key: string -> string, rows: seq<GeoRow>, cc: string, variants: seq<string>, k: nat, i: nat)
    requires k < |variants|
    requires forall k', j :: 0 <= k' < k && 0 <= j < |rows| ==> !ExactHit(key, rows[j], cc, variants[k'])
    requires MostPopulous(ExactTest(key, cc, variants[k]), rows) == Some(i)
    ensures FirstMatchedVariant(key, rows, cc, variants, k)
    ensures FirstMax(ExactTest(key, cc, variants[k]), rows, i, |rows|)
    ensures AnyExact(key, rows, cc, variants)
  {
    assert ExactTest(key, cc, variants[k])(rows[i]);
    assert variants[k] in variants && ExactHit(key, rows[i], cc, variants[k]);
  }

  /** `_best_capital_match` with the variants listed in the order given. The
      result is a row of the country. If some row matches a variant exactly,
      the result matches the first such variant and is its most populous
      match, the earliest on a tie; only otherwise are alternate names tried,
      with the same choice among their matches; no result means neither phase
      found a row. */
  function MatchWith(key: string -> string, rows: seq<GeoRow>, cc: string, variants: seq<string>): (r: Option<GeoRow>)
    ensures r.Some? ==> r.value in rows && r.value.country == cc
    ensures AnyExact(key, rows, cc, variants) ==>
      r.Some? && exists k: nat, i: nat :: FirstMatchedVariant(key, rows, cc, variants, k)
                                && FirstMax(ExactTest(key, cc, variants[k]), rows, i, |rows|) && r.value == rows[i]
    ensures !AnyExact(key, rows, cc, variants) ==>
      && (r.Some? <==> exists j :: 0 <= j < |rows| && AlternateHit(key, rows[j], cc, AsSet(variants)))
      && (r.Some? ==> exists i: nat :: FirstMax(AlternateTest(key, cc, AsSet(variants)), rows, i, |rows|) && r.value == rows[i])
    ensures r.None? <==>
      !AnyExact(key, rows, cc, variants) && forall j :: 0 <= j < |rows| ==> !AlternateHit(key, rows[j], cc, AsSet(variants))
  {
    MatchWithFacts(key, rows, cc, variants);
    TryVariants(key, rows, cc, variants, 0)
  }

  lemma MatchWithFacts(key: string -> string, rows: seq<GeoRow>, cc: string, variants: seq<string>)
    ensures var r := TryVariants(key, rows, cc, variants, 0);
      && (r.Some? ==> r.value in rows && r.value.country == cc)
      && (!AnyExact(key, rows, cc, variants) ==>
            (r.Some? <==> exists j :: 0 <= j < |rows| && AlternateHit(key, rows[j], cc, AsSet(variants))))
      && (!AnyExact(key, rows, cc, variants) && r.Some? ==>
            exists i: nat :: FirstMax(AlternateTest(key, cc, AsSet(variants)), rows, i, |rows|) && r.value == rows[i])
  {
    var r := TryVariants(key, rows, cc, variants, 0);
    if AnyExact(key, rows, cc, variants) {
      var k: nat, i: nat :| FirstMatchedVariant(key, rows, cc, variants, k)
                            && FirstMax(ExactTest(key, cc, variants[k]), rows, i, |rows|) && r == Some(rows[i]);
      assert ExactHit(key, rows[i], cc, variants[k]);
    } else {
      match MostPopulous(AlternateTest(key, cc, AsSet(variants)), rows)
      case None =>
      case Some(i) =>
        assert AlternateTest(key, cc, AsSet(variants))(rows[i]);
        assert FirstMax(AlternateTest(key, cc, AsSet(variants)), rows, i, |rows|) && r.value == rows[i];
    }
  }

  /** `_best_capital_match(rows, country_code, capital)` */
  function BestCapitalMatch(rows: seq<GeoRow>, cc: string, variants: seq<string>): (r: Option<GeoRow>)
    ensures r.Some? ==> r.value in rows && r.value.country == cc
    ensures AnyExact(Norm, rows, cc, variants) ==>
      r.Some? && exists k: nat, i: nat :: FirstMatchedVariant(Norm, rows, cc, variants, k)
                                && FirstMax(ExactTest(Norm, cc, variants[k]), rows, i, |rows|) && r.value == rows[i]
    ensures !AnyExact(Norm, rows, cc, variants) && r.Some? ==>
      exists i: nat :: FirstMax(AlternateTest(Norm, cc, AsSet(variants)), rows, i, |rows|) && r.value == rows[i]
    ensures r.None? <==>
      !AnyExact(Norm, rows, cc, variants) && forall j :: 0 <= j < |rows| ==> !AlternateHit(Norm, rows[j], cc, AsSet(variants))
  {
    MatchWith(Norm, rows, cc, variants)
  }
}
