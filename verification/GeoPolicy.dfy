/**
  GeoIP policies (`src/geoip.rs`): normalisation, and the codec that stores a policy in Kubernetes
  annotations and reads it back.
*/
module GeoPolicy {
  import opened Prelude
  import opened Text
  import opened SortedLists

  datatype GeoIpPolicy = GeoIpPolicy(
    enabled: bool,
    allowCountries: seq<string>,
    denyCountries: seq<string>,
    allowAsns: seq<U32>,
    denyAsns: seq<U32>)

  const DEFAULT := GeoIpPolicy(false, [], [], [], [])

  // ------------------------------------------------------------ normalisation

  /** Trimmed, upper-cased, empty codes dropped. */
  function CleanCodes(codes: seq<string>): seq<string> {
    if codes == [] then [] else
      var code := Upper(Trim(codes[0]));
      (if code == "" then [] else [code]) + CleanCodes(codes[1..])
  }

  function NormalizeCountries(codes: seq<string>): seq<string> {
    SortDedup(CleanCodes(codes), LessString)
  }

  function NormalizeAsns(asns: seq<U32>): seq<U32> {
    SortDedup(asns, LessU32)
  }

  predicate LessU32(a: U32, b: U32) { a < b }

  function Normalized(p: GeoIpPolicy): GeoIpPolicy {
    GeoIpPolicy(p.enabled, NormalizeCountries(p.allowCountries), NormalizeCountries(p.denyCountries),
                NormalizeAsns(p.allowAsns), NormalizeAsns(p.denyAsns))
  }

  // -------------------------------------------------------------- annotations

  /** Annotation keys: the `proxy.pertisk.tech/` names the code uses, and all others. */
  datatype Key =
    | GeoIpEnabled         // geoip-enabled
    | GeoIpAllowCountries  // geoip-allow-countries
    | GeoIpDenyCountries   // geoip-deny-countries
    | GeoIpAllowAsns       // geoip-allow-asns
    | GeoIpDenyAsns        // geoip-deny-asns
    | SecurityExempt       // security-exempt
    | GeoIpExempt          // geoip-exempt
    | OtherKey(name: string)

  type Annotations = map<Key, string>

  const ANNOTATION_KEYS :=
    [GeoIpEnabled, GeoIpAllowCountries, GeoIpDenyCountries, GeoIpAllowAsns, GeoIpDenyAsns]

  const SEPARATORS := {',', ' ', ';'}

  predicate FlagTrue(m: Annotations, key: Key) {
    key in m && Lower(Trim(m[key])) in {"1", "true", "yes", "on"}
  }

  predicate Exempt(m: Annotations) {
    FlagTrue(m, SecurityExempt) || FlagTrue(m, GeoIpExempt)
  }

  function ParseCountries(raw: string): seq<string> {
    NormalizeCountries(Split(raw, SEPARATORS))
  }

  function TrimAs(s: string): string {
    if s != "" && s[0] in {'A', 'S', 'a', 's'} then TrimAs(s[1..]) else s
  }

  function ParseEach(parts: seq<string>): seq<U32> {
    if parts == [] then [] else
      var n := ParseUnsigned(TrimAs(Trim(parts[0])), U32_MAX);
      (if n.Some? && n.value <= U32_MAX then [n.value] else []) + ParseEach(parts[1..])
  }

  function ParseAsns(raw: string): seq<U32> {
    NormalizeAsns(ParseEach(Split(raw, SEPARATORS)))
  }

  function PrintEach(asns: seq<U32>): seq<string> {
    if asns == [] then [] else [Print(asns[0])] + PrintEach(asns[1..])
  }

  function ReadCountries(m: Annotations, key: Key): seq<string> {
    if key in m then ParseCountries(m[key]) else []
  }

  function ReadAsns(m: Annotations, key: Key): seq<U32> {
    if key in m then ParseAsns(m[key]) else []
  }

  /** `policy_from_annotations`. */
  function ReadPolicy(annotations: Option<Annotations>): GeoIpPolicy {
    if annotations.None? || Exempt(annotations.value) then DEFAULT else
      var p := ReadLists(annotations.value);
      Normalized(p.(enabled := FlagTrue(annotations.value, GeoIpEnabled) || p != DEFAULT))
  }

  function ReadLists(m: Annotations): GeoIpPolicy {
    GeoIpPolicy(false, ReadCountries(m, GeoIpAllowCountries), ReadCountries(m, GeoIpDenyCountries),
                ReadAsns(m, GeoIpAllowAsns), ReadAsns(m, GeoIpDenyAsns))
  }

  /** What `apply_annotations` stores under `key` for a normalised policy, if anything. */
  function Written(p: GeoIpPolicy, key: Key): Option<string> {
    if key == GeoIpEnabled && p.enabled then Some("true")
    else if key == GeoIpAllowCountries && p.allowCountries != [] then Some(Join(p.allowCountries, ","))
    else if key == GeoIpDenyCountries && p.denyCountries != [] then Some(Join(p.denyCountries, ","))
    else if key == GeoIpAllowAsns && p.allowAsns != [] then Some(Join(PrintEach(p.allowAsns), ","))
    else if key == GeoIpDenyAsns && p.denyAsns != [] then Some(Join(PrintEach(p.denyAsns), ","))
    else None
  }

  /** `out` is `m` with the GeoIP keys cleared, those in `done` rewritten from `p`, and the rest untouched. */
  ghost predicate Rewritten(m: Annotations, p: GeoIpPolicy, out: Annotations, done: set<Key>) {
    forall key ::
      if key in ANNOTATION_KEYS then
        if key in done && Written(p, key).Some? then key in out && out[key] == Written(p, key).value
        else key !in out
      else
        (key in out <==> key in m) && (key in m ==> out[key] == m[key])
  }

  ghost predicate IsApplied(m: Annotations, policy: GeoIpPolicy, out: Annotations) {
    Rewritten(m, Normalized(policy), out, set key | key in ANNOTATION_KEYS)
  }

  lemma StoreOne(m: Annotations, p: GeoIpPolicy, out: Annotations, done: set<Key>, key: Key)
    requires Rewritten(m, p, out, done) && key in ANNOTATION_KEYS && key !in done
    ensures Rewritten(m, p, if Written(p, key).Some? then out[key := Written(p, key).value] else out, done + {key})
  {
    hide Written;
  }

  method ClearKeys(m: Annotations, ghost p: GeoIpPolicy) returns (out: Annotations)
    ensures Rewritten(m, p, out, {})
  {
    out := m;
    for k := 0 to |ANNOTATION_KEYS|
      invariant forall key :: key in out <==> key in m && key !in ANNOTATION_KEYS[..k]
      invariant forall key :: key in out ==> out[key] == m[key]
    {
      out := out - {ANNOTATION_KEYS[k]};
    }
  }

  /** The edits of `apply_annotations`, in order: every GeoIP key rewritten, every other key as it was. */
  method ApplyAnnotations(m: Annotations, policy: GeoIpPolicy) returns (out: Annotations)
    ensures IsApplied(m, policy, out)
  {
    hide Normalized, Join, PrintEach, Rewritten;
    var p := Normalized(policy);
    out := ClearKeys(m, p);
    if p == DEFAULT {
      DefaultApplied(m, out);
      return;
    }
    StoreOne(m, p, out, {}, GeoIpEnabled);
    if p.enabled {
      out := out[GeoIpEnabled := "true"];
    }
    StoreOne(m, p, out, {} + {GeoIpEnabled}, GeoIpAllowCountries);
    if p.allowCountries != [] {
      out := out[GeoIpAllowCountries := Join(p.allowCountries, ",")];
    }
    StoreOne(m, p, out, {} + {GeoIpEnabled} + {GeoIpAllowCountries}, GeoIpDenyCountries);
    if p.denyCountries != [] {
      out := out[GeoIpDenyCountries := Join(p.denyCountries, ",")];
    }
    ghost var three := {} + {GeoIpEnabled} + {GeoIpAllowCountries} + {GeoIpDenyCountries};
    StoreOne(m, p, out, three, GeoIpAllowAsns);
    if p.allowAsns != [] {
      out := out[GeoIpAllowAsns := Join(PrintEach(p.allowAsns), ",")];
    }
    StoreOne(m, p, out, three + {GeoIpAllowAsns}, GeoIpDenyAsns);
    if p.denyAsns != [] {
      out := out[GeoIpDenyAsns := Join(PrintEach(p.denyAsns), ",")];
    }
    assert (set key | key in ANNOTATION_KEYS) == three + {GeoIpAllowAsns} + {GeoIpDenyAsns};
  }

  lemma DefaultApplied(m: Annotations, out: Annotations)
    requires Rewritten(m, DEFAULT, out, {})
    ensures Rewritten(m, DEFAULT, out, set key | key in ANNOTATION_KEYS)
  {
  }

  // --------------------------------------------------------------- round trip

  /** A country list in normal form: trimmed, upper-case, non-empty, strictly increasing codes. */
  ghost predicate NormalCodes(codes: seq<string>) {
    && Increasing(codes, LessString)
    && forall c :: c in codes ==> c != "" && IsTrimmed(c) && Upper(c) == c
  }

  lemma {:induction false} CleanCodesClean(codes: seq<string>)
    ensures forall c :: c in CleanCodes(codes) ==> c != "" && IsTrimmed(c) && Upper(c) == c
    ensures forall c :: c in CleanCodes(codes) ==> exists k :: 0 <= k < |codes| && c == Upper(Trim(codes[k]))
  {
    if codes != [] {
      CleanCodesClean(codes[1..]);
      TrimTrims(codes[0]);
      CaseKeepsTrimmed(Trim(codes[0]));
      UpperIdempotent(Trim(codes[0]));
      forall c | c in CleanCodes(codes[1..]) ensures exists k :: 0 <= k < |codes| && c == Upper(Trim(codes[k])) {
        var k :| 0 <= k < |codes[1..]| && c == Upper(Trim(codes[1..][k]));
        assert c == Upper(Trim(codes[k + 1]));
      }
    }
  }

  lemma {:induction false} CleanCodesOfClean(codes: seq<string>)
    requires forall c :: c in codes ==> c != "" && IsTrimmed(c) && Upper(c) == c
    ensures CleanCodes(codes) == codes
  {
    hide Trim, Upper, IsTrimmed;
    if codes != [] {
      assert codes[0] in codes && forall c :: c in codes[1..] ==> c in codes;
      TrimOfTrimmed(codes[0]);
      CleanCodesOfClean(codes[1..]);
      assert codes == [codes[0]] + codes[1..];
    }
  }

  lemma NormalizeCountriesNormal(codes: seq<string>)
    ensures NormalCodes(NormalizeCountries(codes))
  {
    LessStringStrict();
    CleanCodesClean(codes);
    SortDedupSorts(CleanCodes(codes), LessString);
  }

  lemma NormalizeOfNormal(codes: seq<string>)
    requires NormalCodes(codes)
    ensures NormalizeCountries(codes) == codes
  {
    LessStringStrict();
    CleanCodesOfClean(codes);
    SortDedupOfIncreasing(codes, LessString);
  }

  lemma LessU32Strict()
    ensures StrictOrder(LessU32)
  {
  }

  lemma NormalizeAsnsNormal(asns: seq<U32>)
    ensures Increasing(NormalizeAsns(asns), LessU32)
    ensures NormalizeAsns(NormalizeAsns(asns)) == NormalizeAsns(asns)
  {
    LessU32Strict();
    SortDedupSorts(asns, LessU32);
    SortDedupOfIncreasing(NormalizeAsns(asns), LessU32);
  }

  /** Normalising twice is normalising once. */
  lemma NormalizedIdempotent(p: GeoIpPolicy)
    ensures Normalized(Normalized(p)) == Normalized(p)
  {
    NormalizeCountriesNormal(p.allowCountries);
    NormalizeOfNormal(NormalizeCountries(p.allowCountries));
    NormalizeCountriesNormal(p.denyCountries);
    NormalizeOfNormal(NormalizeCountries(p.denyCountries));
    NormalizeAsnsNormal(p.allowAsns);
    NormalizeAsnsNormal(p.denyAsns);
  }

  ghost predicate AllFree(codes: seq<string>) {
    forall k :: 0 <= k < |codes| ==> Free(codes[k], SEPARATORS)
  }

  lemma CountriesReadBack(codes: seq<string>)
    requires NormalCodes(codes) && codes != [] && AllFree(codes)
    ensures ParseCountries(Join(codes, ",")) == codes
  {
    hide Split, Join;
    SplitJoined(codes, ',', SEPARATORS);
    NormalizeOfNormal(codes);
  }

  /** Whatever is parsed holds no separator. */
  lemma ParsedCountriesFree(raw: string)
    ensures AllFree(ParseCountries(raw)) && NormalCodes(ParseCountries(raw))
  {
    var parts := Split(raw, SEPARATORS);
    NormalizeCountriesNormal(parts);
    LessStringStrict();
    SortDedupSorts(CleanCodes(parts), LessString);
    CleanCodesClean(parts);
    var codes := ParseCountries(raw);
    forall j | 0 <= j < |codes| ensures Free(codes[j], SEPARATORS) {
      assert codes[j] in CleanCodes(parts);
      var k :| 0 <= k < |parts| && codes[j] == Upper(Trim(parts[k]));
      SplitPartsFree(raw, SEPARATORS, k);
      TrimKeepsFree(parts[k]);
    }
  }

  lemma TrimKeepsFree(s: string)
    requires Free(s, SEPARATORS)
    ensures Free(Upper(Trim(s)), SEPARATORS)
  {
    var i, j := TrimSlice(s);
    var t := Trim(s);
    assert forall k :: 0 <= k < |t| ==> t[k] == s[i + k] && Upper(t)[k] == UpperChar(s[i + k]);
  }

  lemma {:induction false} PrintedAsns(asns: seq<U32>)
    ensures |PrintEach(asns)| == |asns|
    ensures AllFree(PrintEach(asns)) && ParseEach(PrintEach(asns)) == asns
  {
    if asns != [] {
      PrintedAsns(asns[1..]);
      var s := Print(asns[0]);
      assert IsDigit(s[0]) && IsDigit(s[|s| - 1]);
      TrimOfTrimmed(s);
      ParsePrinted(asns[0], U32_MAX);
      assert PrintEach(asns)[1..] == PrintEach(asns[1..]);
      assert asns == [asns[0]] + asns[1..];
    }
  }

  lemma AsnsReadBack(asns: seq<U32>)
    requires Increasing(asns, LessU32) && asns != []
    ensures ParseAsns(Join(PrintEach(asns), ",")) == asns
  {
    hide Split, Join, PrintEach, ParseEach;
    PrintedAsns(asns);
    SplitJoined(PrintEach(asns), ',', SEPARATORS);
    LessU32Strict();
    SortDedupOfIncreasing(asns, LessU32);
  }

  /** No list under a disabled flag, and no separator inside a code. */
  ghost predicate Representable(policy: GeoIpPolicy) {
    var n := Normalized(policy);
    && (n.enabled || n == DEFAULT)
    && AllFree(n.allowCountries) && AllFree(n.denyCountries)
  }

  lemma AsnsComeBack(m: Annotations, policy: GeoIpPolicy, out: Annotations)
    requires IsApplied(m, policy, out)
    ensures ReadAsns(out, GeoIpAllowAsns) == Normalized(policy).allowAsns
    ensures ReadAsns(out, GeoIpDenyAsns) == Normalized(policy).denyAsns
  {
    hide ParseAsns, NormalizeCountries, Join;
    var n := Normalized(policy);
    NormalizeAsnsNormal(policy.allowAsns);
    NormalizeAsnsNormal(policy.denyAsns);
    if n.allowAsns != [] { AsnsReadBack(n.allowAsns); }
    if n.denyAsns != [] { AsnsReadBack(n.denyAsns); }
    assert GeoIpAllowAsns in ANNOTATION_KEYS && GeoIpDenyAsns in ANNOTATION_KEYS;
  }

  /** A country list comes back exactly when none of its codes holds a separator. */
  lemma CountriesComeBack(codes: seq<string>)
    requires codes != [] && NormalCodes(codes)
    ensures ParseCountries(Join(codes, ",")) == codes <==> AllFree(codes)
  {
    hide ParseCountries;
    if AllFree(codes) { CountriesReadBack(codes); }
    ParsedCountriesFree(Join(codes, ","));
  }

  lemma ReadCountriesNormal(m: Annotations, key: Key)
    ensures NormalizeCountries(ReadCountries(m, key)) == ReadCountries(m, key)
    ensures AllFree(ReadCountries(m, key))
  {
    hide ParseCountries;
    if key in m { ParsedCountriesFree(m[key]); }
    NormalizeOfNormal(ReadCountries(m, key));
  }

  /** The lists read are already in normal form; only the flag is computed. */
  lemma ReadPolicyIs(m: Annotations)
    requires !Exempt(m)
    ensures var p := ReadLists(m);
            ReadPolicy(Some(m)) == p.(enabled := FlagTrue(m, GeoIpEnabled) || p != DEFAULT)
    ensures AllFree(ReadLists(m).allowCountries) && AllFree(ReadLists(m).denyCountries)
  {
    hide NormalizeCountries, NormalizeAsns, ReadCountries, ParseEach;
    ReadCountriesNormal(m, GeoIpAllowCountries);
    ReadCountriesNormal(m, GeoIpDenyCountries);
    if GeoIpAllowAsns in m { NormalizeAsnsNormal(ParseEach(Split(m[GeoIpAllowAsns], SEPARATORS))); }
    if GeoIpDenyAsns in m { NormalizeAsnsNormal(ParseEach(Split(m[GeoIpDenyAsns], SEPARATORS))); }
    NormalizeAsnsNormal([]);
    assert NormalizeAsns([]) == [] by { EmptyAsns(); }
  }

  lemma EmptyAsns()
    ensures NormalizeAsns([]) == []
  {
  }

  lemma FlagsComeBack(m: Annotations, policy: GeoIpPolicy, out: Annotations)
    requires IsApplied(m, policy, out)
    ensures Exempt(out) == Exempt(m)
    ensures FlagTrue(out, GeoIpEnabled) == policy.enabled
  {
    hide Join, PrintEach, NormalizeCountries, NormalizeAsns;
    assert SecurityExempt !in ANNOTATION_KEYS && GeoIpExempt !in ANNOTATION_KEYS;
    assert GeoIpEnabled in ANNOTATION_KEYS;
    assert Lower(Trim("true")) == "true";
  }

  lemma CountryListsComeBack(m: Annotations, policy: GeoIpPolicy, out: Annotations)
    requires IsApplied(m, policy, out)
    ensures ReadCountries(out, GeoIpAllowCountries) == Normalized(policy).allowCountries
            <==> AllFree(Normalized(policy).allowCountries)
    ensures ReadCountries(out, GeoIpDenyCountries) == Normalized(policy).denyCountries
            <==> AllFree(Normalized(policy).denyCountries)
  {
    hide ParseCountries, NormalizeCountries, NormalizeAsns, Join, PrintEach;
    var n := Normalized(policy);
    NormalizeCountriesNormal(policy.allowCountries);
    NormalizeCountriesNormal(policy.denyCountries);
    if n.allowCountries != [] { CountriesComeBack(n.allowCountries); }
    if n.denyCountries != [] { CountriesComeBack(n.denyCountries); }
    assert GeoIpAllowCountries in ANNOTATION_KEYS && GeoIpDenyCountries in ANNOTATION_KEYS;
  }

  /**
    Storing a policy in any annotation map without exemption flags and reading it back gives the
    normalised policy exactly when the policy is representable.
  */
  lemma AnnotationRoundTrip(m: Annotations, policy: GeoIpPolicy, out: Annotations)
    requires !Exempt(m) && IsApplied(m, policy, out)
    ensures ReadPolicy(Some(out)) == Normalized(policy) <==> Representable(policy)
  {
    hide ReadPolicy, ReadCountries, ReadAsns, IsApplied, NormalizeCountries, NormalizeAsns, Exempt, FlagTrue, AllFree;
    FlagsComeBack(m, policy, out);
    CountryListsComeBack(m, policy, out);
    AsnsComeBack(m, policy, out);
    ReadPolicyIs(out);
  }

  /** A policy read from annotations is always representable, so writing it back changes no reading. */
  lemma ReadingIsStable(m: Annotations, out: Annotations)
    requires !Exempt(m) && IsApplied(m, ReadPolicy(Some(m)), out)
    ensures ReadPolicy(Some(out)) == ReadPolicy(Some(m))
  {
    hide ReadCountries, ReadAsns, IsApplied, NormalizeCountries, NormalizeAsns, Exempt, FlagTrue, AllFree;
    var p := ReadPolicy(Some(m));
    ReadPolicyIs(m);
    NormalizedIdempotent(ReadLists(m).(enabled := FlagTrue(m, GeoIpEnabled) || ReadLists(m) != DEFAULT));
    AnnotationRoundTrip(m, p, out);
  }
}
