/** The matching key of a place name (`_norm` in generate_cities_v1.py) and the
    candidate keys tried for a country's capital (`_capital_variants`). */
module Normalize {
  import opened PyText

  /** The characters a key may contain. */
  predicate IsKeyChar(c: char) {
    IsAsciiLower(c) || IsDigit(c) || c == ' '
  }

  predicate AllKeyChars(t: string) {
    forall i :: 0 <= i < |t| ==> IsKeyChar(t[i])
  }

  predicate KeyCharsOrSpaces(t: string) {
    forall i :: 0 <= i < |t| ==> IsKeyChar(t[i]) || IsSpace(t[i])
  }

  predicate NoDoubleSpace(t: string) {
    forall i :: 0 <= i < |t| - 1 ==> !(t[i] == ' ' && t[i + 1] == ' ')
  }

  /** What `_norm` promises of its result: only `[a-z0-9 ]`, no leading or
      trailing space, and no two spaces in a row. */
  predicate Canonical(t: string) {
    && AllKeyChars(t)
    && (|t| > 0 ==> t[0] != ' ' && t[|t| - 1] != ' ')
    && NoDoubleSpace(t)
  }

  /** Code points Unicode classifies as nonspacing marks that this model
      drops: the Combining Diacritical Marks block. */
  predicate IsCombiningMark(c: char) {
    '\U{300}' <= c <= '\U{36F}'
  }

  /** The base letter left of a Latin-1 letter after canonical decomposition
      and removal of its marks; every other code point is left alone. */
  function FoldChar(c: char): char {
    if '\U{E0}' <= c <= '\U{E5}' then 'a'
    else if c == '\U{E7}' then 'c'
    else if '\U{E8}' <= c <= '\U{EB}' then 'e'
    else if '\U{EC}' <= c <= '\U{EF}' then 'i'
    else if c == '\U{F1}' then 'n'
    else if '\U{F2}' <= c <= '\U{F6}' then 'o'
    else if '\U{F9}' <= c <= '\U{FC}' then 'u'
    else if c == '\U{FD}' || c == '\U{FF}' then 'y'
    else if '\U{C0}' <= c <= '\U{C5}' then 'A'
    else if c == '\U{C7}' then 'C'
    else if '\U{C8}' <= c <= '\U{CB}' then 'E'
    else if '\U{CC}' <= c <= '\U{CF}' then 'I'
    else if c == '\U{D1}' then 'N'
    else if '\U{D2}' <= c <= '\U{D6}' then 'O'
    else if '\U{D9}' <= c <= '\U{DC}' then 'U'
    else if c == '\U{DD}' then 'Y'
    else c
  }

  /** `_strip_diacritics`: decompose, then drop the nonspacing marks. */
  function StripDiacritics(s: string): string {
    if |s| == 0 then ""
    else (if IsCombiningMark(s[0]) then "" else [FoldChar(s[0])]) + StripDiacritics(s[1..])
  }

  /** `s.replace("&", " and ")` */
  function ReplaceAmpersand(s: string): string {
    if |s| == 0 then ""
    else (if s[0] == '&' then " and " else [s[0]]) + ReplaceAmpersand(s[1..])
  }

  /** `_PUNCT_RE.sub(" ", s)`: each character outside `[a-z0-9\s]` becomes a space. */
  function BlankPunctuation(s: string): (r: string)
    ensures |r| == |s|
    ensures KeyCharsOrSpaces(r)
  {
    seq(|s|, i requires 0 <= i < |s| =>
      if IsAsciiLower(s[i]) || IsDigit(s[i]) || IsSpace(s[i]) then s[i] else ' ')
  }

  /** `_SPACE_RE.sub(" ", s)`: every maximal run of whitespace becomes one
      space, so no two spaces remain adjacent and only key characters are left
      of a string of key characters and whitespace. */
  function CollapseSpaces(s: string): (r: string)
    ensures KeyCharsOrSpaces(s) ==> AllKeyChars(r)
    ensures NoDoubleSpace(r)
    ensures |r| > 0 <==> |s| > 0
    ensures |r| > 0 ==> (r[0] == ' ' <==> IsSpace(s[0]))
    decreases |s|
  {
    if |s| == 0 then ""
    else if IsSpace(s[0]) then
      var n := LeadingSpaces(s);
      var tail := CollapseSpaces(s[n..]);
      assert KeyCharsOrSpaces(s) ==> KeyCharsOrSpaces(s[n..]) by {
        assert forall k :: 0 <= k < |s[n..]| ==> s[n..][k] == s[n + k];
      }
      " " + tail
    else
      var tail := CollapseSpaces(s[1..]);
      assert KeyCharsOrSpaces(s) ==> KeyCharsOrSpaces(s[1..]) by {
        assert forall k :: 0 <= k < |s[1..]| ==> s[1..][k] == s[1 + k];
      }
      [s[0]] + tail
  }

  /** The first five steps of `_norm`: strip, lower-case, fold diacritics,
      spell out `&` and blank punctuation. Only key characters and whitespace remain. */
  function Clean(s: string): (r: string)
    ensures KeyCharsOrSpaces(r)
  {
    BlankPunctuation(ReplaceAmpersand(StripDiacritics(Lower(Strip(s)))))
  }

  /** A slice of a string of key characters without double spaces, cut so that
      it neither begins nor ends with whitespace, is a key. */
  lemma SliceCanonical(c: string, a: nat, b: nat)
    requires a <= b <= |c|
    requires AllKeyChars(c) && NoDoubleSpace(c)
    requires b > a ==> !IsSpace(c[a]) && !IsSpace(c[b - 1])
    ensures Canonical(c[a..b])
  {
    var r := c[a..b];
    assert forall k :: 0 <= k < |r| ==> r[k] == c[a + k];
  }

  /** The last two steps of `_norm`: collapse whitespace runs, then strip. */
  function Squeeze(t: string): (r: string)
    ensures KeyCharsOrSpaces(t) ==> Canonical(r)
  {
    var collapsed := CollapseSpaces(t);
    if KeyCharsOrSpaces(t) then
      SliceCanonical(collapsed, StripStart(collapsed), StripEnd(collapsed));
      Strip(collapsed)
    else Strip(collapsed)
  }

  /** `_norm` */
  function Norm(s: string): (r: string)
    ensures Canonical(r)
  {
    Squeeze(Clean(s))
  }

  lemma {:induction false} StripDiacriticsKeys(t: string)
    requires forall i :: 0 <= i < |t| ==> IsKeyChar(t[i])
    ensures StripDiacritics(t) == t
  {
    if |t| > 0 {
      StripDiacriticsKeys(t[1..]);
      assert t == [t[0]] + t[1..];
    }
  }

  lemma {:induction false} ReplaceAmpersandKeys(t: string)
    requires forall i :: 0 <= i < |t| ==> IsKeyChar(t[i])
    ensures ReplaceAmpersand(t) == t
  {
    if |t| > 0 {
      ReplaceAmpersandKeys(t[1..]);
      assert t == [t[0]] + t[1..];
    }
  }

  /** A string whose only whitespace is single spaces is left alone by the collapse. */
  lemma {:induction false} CollapseSingleSpaces(t: string)
    requires AllKeyChars(t) && NoDoubleSpace(t)
    ensures CollapseSpaces(t) == t
  {
    if |t| > 0 {
      assert AllKeyChars(t[1..]) && NoDoubleSpace(t[1..]) by {
        assert forall k :: 0 <= k < |t[1..]| ==> t[1..][k] == t[k + 1];
      }
      CollapseSingleSpaces(t[1..]);
      if IsSpace(t[0]) {
        assert t[0] == ' ';
        assert |t| > 1 ==> !IsSpace(t[1]);
        assert LeadingSpaces(t) == 1;
      }
      assert t == [t[0]] + t[1..];
    }
  }

  /** Every canonical string is its own key. */
  lemma CanonicalIsFixed(t: string)
    requires Canonical(t)
    ensures Norm(t) == t
  {
    CleanCanonical(t);
    SqueezeCanonical(t);
  }

  lemma CleanCanonical(t: string)
    requires Canonical(t)
    ensures Clean(t) == t
  {
    StripTrimmed(t);
    LowerKeys(t);
    StripDiacriticsKeys(t);
    ReplaceAmpersandKeys(t);
    BlankPunctuationKeys(t);
  }

  lemma LowerKeys(t: string)
    requires AllKeyChars(t)
    ensures Lower(t) == t
  {
    forall i | 0 <= i < |t| ensures Lower(t)[i] == t[i] {
      assert IsKeyChar(t[i]);
    }
  }

  lemma BlankPunctuationKeys(t: string)
    requires AllKeyChars(t)
    ensures BlankPunctuation(t) == t
  {
    forall i | 0 <= i < |t| ensures BlankPunctuation(t)[i] == t[i] {
      assert IsKeyChar(t[i]);
    }
  }

  lemma SqueezeCanonical(t: string)
    requires Canonical(t)
    ensures Squeeze(t) == t
  {
    CollapseSingleSpaces(t);
    StripTrimmed(t);
  }

  /** A string is a key exactly when normalising it changes nothing. */
  lemma NormFixedIffCanonical(t: string)
    ensures Norm(t) == t <==> Canonical(t)
  {
    if Canonical(t) {
      CanonicalIsFixed(t);
    }
  }

  /** `_norm(_norm(s)) == _norm(s)` */
  lemma NormIdempotent(s: string)
    ensures Norm(Norm(s)) == Norm(s)
  {
    CanonicalIsFixed(Norm(s));
  }

  /** `_capital_variants`, as the set it builds before listing it. */
  function CapitalVariants(capital: string): set<string> {
    VariantsOfKey(Norm(capital))
  }

  /** The variant set of a key: the key, a "saint " spelling of an "st "
      prefix, an "st" contraction, the hyphen-free spelling, and "macau" for
      "macao"; the empty string is dropped. */
  function VariantsOfKey(base: string): set<string> {
    var out := {base}
      + (if StartsWith(base, "st ") then {"saint " + base[3..]} else {})
      + (if StartsWith(base, "st ") then {"st" + base[2..]} else {})
      + {ReplaceChar(base, '-', ' ')}
      + (if base == "macao" then {"macau"} else {});
    set v | v in out && v != ""
  }

  /** The "st" contraction and the hyphen-free spelling never add anything to
      a key: `_norm` has already turned hyphens into spaces and the dot of
      "st." into "st ". */
  lemma RedundantVariants(base: string)
    requires Canonical(base)
    ensures StartsWith(base, "st ") ==> "st" + base[2..] == base
    ensures ReplaceChar(base, '-', ' ') == base
  {
    if StartsWith(base, "st ") {
      assert base == base[..2] + base[2..];
    }
    assert forall i :: 0 <= i < |base| ==> base[i] != '-';
    ReplaceAbsentChar(base, '-', ' ');
  }

  /** The variants that can actually differ from the key. */
  function AliasKeys(base: string): set<string> {
    if base == "" then {}
    else
      {base}
      + (if StartsWith(base, "st ") then {"saint " + base[3..]} else {})
      + (if base == "macao" then {"macau"} else {})
  }

  lemma VariantsOfKeyAreAliases(base: string)
    requires Canonical(base)
    ensures VariantsOfKey(base) == AliasKeys(base)
  {
    RedundantVariants(base);
    if StartsWith(base, "st ") {
      assert "saint " + base[3..] != "";
    }
  }

  /** The variant list is empty exactly when the capital has an empty key;
      otherwise it holds that key, an "st " key gains its "saint " spelling,
      "macao" gains "macau", and no variant is empty. */
  lemma CapitalVariantsSpec(capital: string)
    ensures CapitalVariants(capital) == {} <==> Norm(capital) == ""
    ensures Norm(capital) != "" ==> Norm(capital) in CapitalVariants(capital)
    ensures StartsWith(Norm(capital), "st ") ==> "saint " + Norm(capital)[3..] in CapitalVariants(capital)
    ensures Norm(capital) == "macao" ==> "macau" in CapitalVariants(capital)
    ensures forall v :: v in CapitalVariants(capital) ==> v != ""
    ensures CapitalVariants(capital) == AliasKeys(Norm(capital))
  {
    VariantsOfKeyAreAliases(Norm(capital));
  }

  /** The "saint " spelling of a key with an "st " prefix is a key too. */
  lemma SaintSpellingCanonical(base: string)
    requires Canonical(base) && StartsWith(base, "st ")
    ensures Canonical("saint " + base[3..])
  {
    var rest := base[3..];
    var v := "saint " + rest;
    assert |base| > 3;
    assert rest[0] == base[3] && base[2] == ' ';
    assert forall i :: 0 <= i < |rest| ==> rest[i] == base[i + 3];
    assert forall i :: 6 <= i < |v| ==> v[i] == rest[i - 6];
  }

  /** Every variant of a key is a key. */
  lemma VariantsOfKeyCanonical(base: string)
    requires Canonical(base)
    ensures forall v :: v in VariantsOfKey(base) ==> Canonical(v)
  {
    VariantsOfKeyAreAliases(base);
    if StartsWith(base, "st ") {
      SaintSpellingCanonical(base);
    }
    assert Canonical("macau");
  }

  /** Every variant is itself a normalised key, so it can equal `_norm` of a name. */
  lemma VariantsAreKeys(capital: string)
    ensures forall v :: v in CapitalVariants(capital) ==> Norm(v) == v
  {
    VariantsOfKeyCanonical(Norm(capital));
    forall v | v in CapitalVariants(capital)
      ensures Norm(v) == v
    {
      CanonicalIsFixed(v);
    }
  }

  /** One listing of the variant set, in the order the build tries them: the
      key, then the "saint " spelling, then "macau". Python lists the set in
      hash order; the matcher's properties hold for every order. */
  function VariantOrder(capital: string): (vs: seq<string>)
    ensures forall v :: v in vs <==> v in CapitalVariants(capital)
    ensures forall i, j :: 0 <= i < j < |vs| ==> vs[i] != vs[j]
  {
    VariantOrderOfKey(Norm(capital))
  }

  function VariantOrderOfKey(base: string): (vs: seq<string>)
    requires Canonical(base)
    ensures forall v :: v in vs <==> v in VariantsOfKey(base)
    ensures forall i, j :: 0 <= i < j < |vs| ==> vs[i] != vs[j]
  {
    VariantsOfKeyAreAliases(base);
    if base == "" then []
    else
      [base]
      + (if StartsWith(base, "st ") then ["saint " + base[3..]] else [])
      + (if base == "macao" then ["macau"] else [])
  }
}
