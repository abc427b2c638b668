/** WAF, bot and captcha policies (`src/security/`): the data and its normalisation. */
module Security {
  import opened Prelude
  import opened Text
  import GeoPolicy

  datatype BotPolicy = BotPolicy(enabled: bool, challengeScore: nat, blockScore: nat, rateLimitPerMin: nat)
  datatype CaptchaPolicy = CaptchaPolicy(enabled: bool, cookieTtlSecs: nat)
  datatype WafAction = Block | Log | Challenge
  datatype WafRule = WafRule(
    id: string, enabled: bool, action: WafAction, methods: seq<string>,
    pathContains: Option<string>, queryContains: Option<string>, uaContains: Option<string>)
  datatype WafPolicy = WafPolicy(enabled: bool, useBuiltinRules: bool, rules: seq<WafRule>)
  datatype SecurityPolicy = SecurityPolicy(waf: WafPolicy, bot: BotPolicy, captcha: CaptchaPolicy)

  const DEFAULT := SecurityPolicy(
    WafPolicy(false, false, []), BotPolicy(false, 40, 80, 120), CaptchaPolicy(false, 86_400))

  function NormalizedBot(p: BotPolicy): BotPolicy {
    var challenge := if p.challengeScore == 0 then 40 else p.challengeScore;
    var block := if p.blockScore == 0 then 80 else p.blockScore;
    BotPolicy(p.enabled, challenge, if block < challenge then challenge else block,
              if p.rateLimitPerMin == 0 then 120 else p.rateLimitPerMin)
  }

  function NormalizedCaptcha(p: CaptchaPolicy): CaptchaPolicy {
    if p.cookieTtlSecs == 0 then p.(cookieTtlSecs := 86_400) else p
  }

  function TrimOption(s: Option<string>): Option<string> {
    if s.Some? then Some(Trim(s.value)) else None
  }

  function NormalizedRule(r: WafRule): WafRule {
    WafRule(Trim(r.id), r.enabled, r.action, GeoPolicy.CleanCodes(r.methods),
            TrimOption(r.pathContains), TrimOption(r.queryContains), TrimOption(r.uaContains))
  }

  function NormalizedRules(rules: seq<WafRule>): seq<WafRule> {
    if rules == [] then [] else
      var r := NormalizedRule(rules[0]);
      (if r.id == "" then [] else [r]) + NormalizedRules(rules[1..])
  }

  function Normalized(p: SecurityPolicy): SecurityPolicy {
    SecurityPolicy(p.waf.(rules := NormalizedRules(p.waf.rules)), NormalizedBot(p.bot), NormalizedCaptcha(p.captcha))
  }

  lemma RuleIdempotent(r: WafRule)
    ensures NormalizedRule(NormalizedRule(r)) == NormalizedRule(r)
  {
    hide Trim;
    TrimIdempotent(r.id);
    if r.pathContains.Some? { TrimIdempotent(r.pathContains.value); }
    if r.queryContains.Some? { TrimIdempotent(r.queryContains.value); }
    if r.uaContains.Some? { TrimIdempotent(r.uaContains.value); }
    GeoPolicy.CleanCodesClean(r.methods);
    GeoPolicy.CleanCodesOfClean(GeoPolicy.CleanCodes(r.methods));
  }

  lemma {:induction false} RulesIdempotent(rules: seq<WafRule>)
    ensures NormalizedRules(NormalizedRules(rules)) == NormalizedRules(rules)
  {
    hide NormalizedRule;
    if rules != [] {
      RulesIdempotent(rules[1..]);
      RuleIdempotent(rules[0]);
      var r := NormalizedRule(rules[0]);
      var rest := NormalizedRules(rules[1..]);
      if r.id != "" {
        assert NormalizedRules(rules) == [r] + rest && ([r] + rest)[1..] == rest;
      } else {
        assert NormalizedRules(rules) == rest;
      }
    }
  }

  lemma NormalizedIdempotent(p: SecurityPolicy)
    ensures Normalized(Normalized(p)) == Normalized(p)
  {
    RulesIdempotent(p.waf.rules);
  }
}
