/**
 * The deterministic part of the contract-analysis service: the keyword
 * fallback of field extraction, the four rule checks of the audit (the path
 * taken when no language-model client is configured), and the line-window
 * evidence finder they use.
 */
module LlmService {
  import opened Common
  import opened Strings
  import opened Json
  import opened NoticePattern

  // ---------------------------------------------------------------------
  // Findings
  // ---------------------------------------------------------------------

  datatype CharRange = CharRange(start: int, end: int)

  /** The severities "high", "medium" and "low". */
  datatype Severity = High | Medium | Low

  /** The category tags the rule checks use: "auto_renewal", "liability"
      and "indemnity". */
  datatype Category = AutoRenewal | Liability | Indemnity

  /** One audit finding; the rule checks leave `charRange` and `page` unset. */
  datatype Finding = Finding(
    severity: Severity,
    category: Category,
    description: string,
    evidence: string,
    charRange: Option<CharRange>,
    page: Option<int>)

  const EvidenceNotFound: string := "Evidence not found in text"

  /** Longest indemnity excerpt quoted as evidence. */
  const IndemnityEvidenceLimit: nat := 200

  /** Notice periods strictly below this many days are risky. */
  const NoticeDays: nat := 30

  /** The words that make an indemnity clause broad. */
  const BroadWords: seq<string> := ["all", "any", "every", "unlimited"]

  // ---------------------------------------------------------------------
  // Keyword fallback of field extraction
  // ---------------------------------------------------------------------

  const ExtractedFields: set<string> := {
    "parties", "effective_date", "term", "governing_law", "payment_terms",
    "termination", "auto_renewal", "confidentiality", "indemnity",
    "liability_cap", "signatories"}

  /** Both renewal keywords occur in the lowercased text. */
  predicate MentionsAutoRenewal(text: string) {
    Contains(Lower(text), "auto") && Contains(Lower(text), "renew")
  }

  /** What the keyword fallback produces: all eleven fields, the two lists
      empty, `auto_renewal` true when both keywords occur and None (not
      False) otherwise, every other field None. */
  predicate IsBasicExtraction(text: string, fields: map<string, Json>) {
    && fields.Keys == ExtractedFields
    && fields["parties"] == JArr([])
    && fields["signatories"] == JArr([])
    && fields["auto_renewal"] == (if MentionsAutoRenewal(text) then JBool(true) else JNull)
    && forall k :: k in fields && k != "parties" && k != "signatories" && k != "auto_renewal" ==>
         fields[k] == JNull
  }

  /** `_basic_extraction`: start from the all-empty dictionary, then set
      `auto_renewal` when both keywords occur. */
  method BasicExtraction(text: string) returns (result: map<string, Json>)
    ensures IsBasicExtraction(text, result)
  {
    result := map[
      "parties" := JArr([]),
      "effective_date" := JNull,
      "term" := JNull,
      "governing_law" := JNull,
      "payment_terms" := JNull,
      "termination" := JNull,
      "auto_renewal" := JNull,
      "confidentiality" := JNull,
      "indemnity" := JNull,
      "liability_cap" := JNull,
      "signatories" := JArr([])];
    var textLower := Lower(text);
    if Contains(textLower, "auto") && Contains(textLower, "renew") {
      result := result["auto_renewal" := JBool(true)];
    }
  }

  // ---------------------------------------------------------------------
  // Evidence: the lines around the first line holding every keyword
  // ---------------------------------------------------------------------

  /** Every keyword occurs in the lowercased line (the keywords themselves
      are not lowercased). */
  predicate LineHasAll(line: string, keywords: seq<string>) {
    forall k :: 0 <= k < |keywords| ==> Contains(Lower(line), keywords[k])
  }

  /** Index of the first line holding every keyword. */
  function FirstLineWith(lines: seq<string>, keywords: seq<string>): (r: Option<nat>)
    ensures r.Some? ==> r.value < |lines| && LineHasAll(lines[r.value], keywords)
    ensures r.Some? ==> forall j :: 0 <= j < r.value ==> !LineHasAll(lines[j], keywords)
    ensures r.None? ==> forall j :: 0 <= j < |lines| ==> !LineHasAll(lines[j], keywords)
    decreases |lines|
  {
    if |lines| == 0 then None
    else if LineHasAll(lines[0], keywords) then Some(0)
    else match FirstLineWith(lines[1..], keywords)
      case None => None
      case Some(i) => Some(i + 1)
  }

  /** First line of the window around line i: up to two lines before it. */
  function WindowStart(i: nat): nat {
    if i >= 2 then i - 2 else 0
  }

  /** One past the last line of the window: up to two lines after line i. */
  function WindowEnd(i: nat, n: nat): nat {
    if i + 3 <= n then i + 3 else n
  }

  /** What `_find_evidence(text, *keywords)` returns. */
  function Evidence(text: string, keywords: seq<string>): string {
    var lines := Split(text, '\n');
    match FirstLineWith(lines, keywords)
    case None => EvidenceNotFound
    case Some(i) => Join(lines[WindowStart(i)..WindowEnd(i, |lines|)], "\n")
  }

  /** `_find_evidence`: scan the lines, return the window around the first
      line holding every keyword, or the fixed message. */
  method FindEvidence(text: string, keywords: seq<string>) returns (r: string)
    ensures r == Evidence(text, keywords)
  {
    var lines := Split(text, '\n');
    var i := 0;
    while i < |lines|
      invariant i <= |lines|
      invariant forall j :: 0 <= j < i ==> !LineHasAll(lines[j], keywords)
    {
      var lineLower := Lower(lines[i]);
      if forall k | 0 <= k < |keywords| :: Contains(lineLower, keywords[k]) {
        var start := if i - 2 > 0 then i - 2 else 0;
        var end := if |lines| < i + 3 then |lines| else i + 3;
        FirstLineIs(lines, keywords, i);
        r := Join(lines[start..end], "\n");
        return;
      }
      i := i + 1;
    }
    r := EvidenceNotFound;
  }

  /** The first line holding every keyword is the one FirstLineWith finds. */
  lemma FirstLineIs(lines: seq<string>, keywords: seq<string>, i: nat)
    requires i < |lines| && LineHasAll(lines[i], keywords)
    requires forall j :: 0 <= j < i ==> !LineHasAll(lines[j], keywords)
    ensures FirstLineWith(lines, keywords) == Some(i)
  {
  }

  /** When some line holds every keyword, the evidence is made of at most
      five whole lines of the text: the first such line, and up to two lines
      on each side of it. */
  lemma EvidenceLines(text: string, keywords: seq<string>, i: nat)
    requires i < |Split(text, '\n')| && LineHasAll(Split(text, '\n')[i], keywords)
    requires forall j :: 0 <= j < i ==> !LineHasAll(Split(text, '\n')[j], keywords)
    ensures var lines := Split(text, '\n');
      && Split(Evidence(text, keywords), '\n') == lines[WindowStart(i)..WindowEnd(i, |lines|)]
      && WindowStart(i) <= i < WindowEnd(i, |lines|)
      && WindowEnd(i, |lines|) - WindowStart(i) <= 5
  {
    var lines := Split(text, '\n');
    FirstLineIs(lines, keywords, i);
    var window := lines[WindowStart(i)..WindowEnd(i, |lines|)];
    assert forall k :: 0 <= k < |window| ==> window[k] == lines[WindowStart(i) + k];
    SplitJoin(window, '\n');
  }

  /** The evidence found for a matching line is an excerpt of the text. */
  lemma EvidenceInText(text: string, keywords: seq<string>, i: nat)
    requires i < |Split(text, '\n')| && LineHasAll(Split(text, '\n')[i], keywords)
    requires forall j :: 0 <= j < i ==> !LineHasAll(Split(text, '\n')[j], keywords)
    ensures Contains(text, Evidence(text, keywords))
  {
    var lines := Split(text, '\n');
    FirstLineIs(lines, keywords, i);
    JoinInfix(lines, "\n", WindowStart(i), WindowEnd(i, |lines|));
    JoinSplit(text, '\n');
  }

  /** When no line holds every keyword, the evidence is the fixed message. */
  lemma EvidenceMissing(text: string, keywords: seq<string>)
    requires forall j :: 0 <= j < |Split(text, '\n')| ==> !LineHasAll(Split(text, '\n')[j], keywords)
    ensures Evidence(text, keywords) == EvidenceNotFound
  {
  }

  // ---------------------------------------------------------------------
  // The four rule checks
  // ---------------------------------------------------------------------

  /** Index of the first number below the bound, read with `int()`. */
  function FirstBelow(numbers: seq<string>, bound: nat): (r: Option<nat>)
    requires forall k :: 0 <= k < |numbers| ==> AllDigits(numbers[k])
    ensures r.Some? ==> r.value < |numbers| && ParseDigits(numbers[r.value]) < bound
    ensures r.Some? ==> forall j :: 0 <= j < r.value ==> ParseDigits(numbers[j]) >= bound
    ensures r.None? ==> forall j :: 0 <= j < |numbers| ==> ParseDigits(numbers[j]) >= bound
    decreases |numbers|
  {
    if |numbers| == 0 then None
    else if ParseDigits(numbers[0]) < bound then Some(0)
    else match FirstBelow(numbers[1..], bound)
      case None => None
      case Some(i) => Some(i + 1)
  }

  /** Position of a rule's finding in the fixed rule order. */
  function Rank(f: Finding): nat {
    match f.category
    case AutoRenewal => 0
    case Liability => if f.severity == High then 1 else 2
    case Indemnity => 3
  }

  predicate HasRank(findings: seq<Finding>, r: nat) {
    exists i :: 0 <= i < |findings| && Rank(findings[i]) == r
  }

  /** The shape of what rule number `rank` can add: a finding of that rank,
      of high severity except the missing-cap finding, with no character
      range and no page. */
  predicate RuleOutput(o: Option<Finding>, rank: nat) {
    o.Some? ==>
      && Rank(o.value) == rank
      && o.value.severity == (if rank == 2 then Medium else High)
      && o.value.charRange.None? && o.value.page.None?
  }

  function AutoRenewalNotice(text: string, number: string): Finding {
    Finding(High, AutoRenewal, "Auto-renewal with only " + number + " days notice",
            Evidence(text, ["auto", "renew"]), None, None)
  }

  /** The auto-renewal rule: the extracted flag is truthy, the original text
      holds "30", the lowercased text holds "day", and some notice number of
      the lowercased text is below 30; the first such number is reported. */
  function AutoRenewalFinding(text: string, fields: map<string, Json>): (r: Option<Finding>)
    ensures RuleOutput(r, 0)
  {
    var textLower := Lower(text);
    if Truthy(Get(fields, "auto_renewal", JNull)) && Contains(text, "30") && Contains(textLower, "day") then
      var matches := FindAll(textLower, 0);
      match FirstBelow(matches, NoticeDays)
      case Some(i) => Some(AutoRenewalNotice(text, matches[i]))
      case None => None
    else None
  }

  /** Both "unlimited" and "liability" occur in the lowercased text. */
  predicate MentionsUnlimitedLiability(text: string) {
    Contains(Lower(text), "unlimited") && Contains(Lower(text), "liability")
  }

  function UnlimitedLiabilityFinding(text: string): (r: Option<Finding>)
    ensures RuleOutput(r, 1)
  {
    if MentionsUnlimitedLiability(text) then
      Some(Finding(High, Liability, "Unlimited liability clause detected",
                   Evidence(text, ["unlimited", "liability"]), None, None))
    else None
  }

  const LiabilityCapMissing: Finding :=
    Finding(Medium, Liability, "No liability cap specified",
            "Liability cap field is null or zero", None, None)

  /** The cap rule: `liability_cap` is a non-empty dictionary whose `amount`
      (0 when absent) equals zero or is None. */
  function LiabilityCapFinding(fields: map<string, Json>): (r: Option<Finding>)
    ensures RuleOutput(r, 2)
  {
    var cap := Get(fields, "liability_cap", JNull);
    if Truthy(cap) && cap.JObj? then
      var amount := Get(cap.fields, "amount", JNum(0.0));
      if EqualsZero(amount) || amount == JNull then Some(LiabilityCapMissing) else None
    else None
  }

  /** Some broad word occurs in the (lowercased) indemnity text. */
  predicate HasBroadWord(textLower: string) {
    exists k :: 0 <= k < |BroadWords| && Contains(textLower, BroadWords[k])
  }

  /** The indemnity rule: `indemnity` (empty when absent) is a non-empty
      string with a broad word in it; its first 200 characters are quoted. */
  function BroadIndemnityFinding(fields: map<string, Json>): (r: Option<Finding>)
    ensures RuleOutput(r, 3)
  {
    var indemnity := Get(fields, "indemnity", JStr(""));
    if Truthy(indemnity) && indemnity.JStr? && HasBroadWord(Lower(indemnity.s)) then
      Some(Finding(High, Indemnity, "Broad indemnity clause detected",
                   Slice(indemnity.s, 0, IndemnityEvidenceLimit), None, None))
    else None
  }

  function AsList(o: Option<Finding>): seq<Finding> {
    match o
    case Some(f) => [f]
    case None => []
  }

  /** The rule findings of an audit, in the order the rules run. */
  function RuleFindings(text: string, fields: map<string, Json>): seq<Finding> {
    AsList(AutoRenewalFinding(text, fields)) + AsList(UnlimitedLiabilityFinding(text))
      + AsList(LiabilityCapFinding(fields)) + AsList(BroadIndemnityFinding(fields))
  }

  /** The auto-renewal block of `audit_contract`: scan the notice numbers
      and stop at the first one below 30. */
  method CheckAutoRenewal(text: string, fields: map<string, Json>) returns (findings: seq<Finding>)
    ensures findings == AsList(AutoRenewalFinding(text, fields))
  {
    findings := [];
    if Truthy(Get(fields, "auto_renewal", JNull)) {
      var textLower := Lower(text);
      if Contains(text, "30") && Contains(textLower, "day") {
        var matches := FindAll(textLower, 0);
        var k := 0;
        while k < |matches|
          invariant k <= |matches|
          invariant findings == []
          invariant forall j :: 0 <= j < k ==> ParseDigits(matches[j]) >= NoticeDays
        {
          if ParseDigits(matches[k]) < NoticeDays {
            var evidence := FindEvidence(text, ["auto", "renew"]);
            findings := findings + [Finding(High, AutoRenewal,
              "Auto-renewal with only " + matches[k] + " days notice", evidence, None, None)];
            break;
          }
          k := k + 1;
        }
      }
    }
  }

  /** The unlimited-liability block of `audit_contract`. */
  method CheckUnlimitedLiability(text: string) returns (findings: seq<Finding>)
    ensures findings == AsList(UnlimitedLiabilityFinding(text))
  {
    findings := [];
    var textLower := Lower(text);
    if Contains(textLower, "unlimited") && Contains(textLower, "liability") {
      var evidence := FindEvidence(text, ["unlimited", "liability"]);
      findings := findings + [Finding(High, Liability, "Unlimited liability clause detected",
                                      evidence, None, None)];
    }
  }

  /** The liability-cap block of `audit_contract`. */
  method CheckLiabilityCap(fields: map<string, Json>) returns (findings: seq<Finding>)
    ensures findings == AsList(LiabilityCapFinding(fields))
  {
    findings := [];
    var cap := Get(fields, "liability_cap", JNull);
    if Truthy(cap) && cap.JObj? {
      var amount := Get(cap.fields, "amount", JNum(0.0));
      if EqualsZero(amount) || amount == JNull {
        findings := findings + [LiabilityCapMissing];
      }
    }
  }

  /** The broad-indemnity block of `audit_contract`. */
  method CheckBroadIndemnity(fields: map<string, Json>) returns (findings: seq<Finding>)
    ensures findings == AsList(BroadIndemnityFinding(fields))
  {
    findings := [];
    var indemnity := Get(fields, "indemnity", JStr(""));
    if Truthy(indemnity) && indemnity.JStr? {
      var indemnityLower := Lower(indemnity.s);
      if HasBroadWord(indemnityLower) {
        findings := findings + [Finding(High, Indemnity, "Broad indemnity clause detected",
                                        Slice(indemnity.s, 0, IndemnityEvidenceLimit), None, None)];
      }
    }
  }

  /** `audit_contract` without a language-model client: the four rule
      blocks append to the findings in turn. */
  method AuditContract(text: string, fields: map<string, Json>) returns (findings: seq<Finding>)
    ensures findings == RuleFindings(text, fields)
  {
    findings := CheckAutoRenewal(text, fields);
    var liability := CheckUnlimitedLiability(text);
    findings := findings + liability;
    var cap := CheckLiabilityCap(fields);
    findings := findings + cap;
    var indemnity := CheckBroadIndemnity(fields);
    findings := findings + indemnity;
  }

  // ---------------------------------------------------------------------
  // Properties of the rules
  // ---------------------------------------------------------------------

  /** Four rule outputs, concatenated in rank order, are ranked strictly
      increasingly. */
  lemma RankedConcat(a: Option<Finding>, b: Option<Finding>, c: Option<Finding>, d: Option<Finding>)
    requires RuleOutput(a, 0) && RuleOutput(b, 1) && RuleOutput(c, 2) && RuleOutput(d, 3)
    ensures var fs := AsList(a) + AsList(b) + AsList(c) + AsList(d);
      && |fs| <= 4
      && (forall i, j :: 0 <= i < j < |fs| ==> Rank(fs[i]) < Rank(fs[j]))
      && (forall i :: 0 <= i < |fs| ==> fs[i].charRange.None? && fs[i].page.None?)
      && (forall i :: 0 <= i < |fs| ==> fs[i].severity == (if Rank(fs[i]) == 2 then Medium else High))
  {
    var fs := AsList(a) + AsList(b) + AsList(c) + AsList(d);
    assert forall i :: 0 <= i < |fs| ==> RuleOutput(Some(fs[i]), Rank(fs[i]));
  }

  /** In that concatenation, rank k is present exactly when output k is. */
  lemma RankedConcatPresence(a: Option<Finding>, b: Option<Finding>, c: Option<Finding>, d: Option<Finding>)
    requires RuleOutput(a, 0) && RuleOutput(b, 1) && RuleOutput(c, 2) && RuleOutput(d, 3)
    ensures var fs := AsList(a) + AsList(b) + AsList(c) + AsList(d);
      && (HasRank(fs, 0) <==> a.Some?) && (HasRank(fs, 1) <==> b.Some?)
      && (HasRank(fs, 2) <==> c.Some?) && (HasRank(fs, 3) <==> d.Some?)
  {
    var fs := AsList(a) + AsList(b) + AsList(c) + AsList(d);
    assert forall i :: 0 <= i < |fs| ==> RuleOutput(Some(fs[i]), Rank(fs[i]));
    if a.Some? { assert Rank(fs[0]) == 0; }
    if b.Some? { assert Rank(fs[|AsList(a)|]) == 1; }
    if c.Some? { assert Rank(fs[|AsList(a)| + |AsList(b)|]) == 2; }
    if d.Some? { assert Rank(fs[|fs| - 1]) == 3; }
  }

  /** At most four findings, strictly in rule order (so at most one per
      rule), none with a character range or page, all of high severity
      except the missing-cap finding. */
  lemma RuleFindingsShape(text: string, fields: map<string, Json>)
    ensures var fs := RuleFindings(text, fields);
      && |fs| <= 4
      && (forall i, j :: 0 <= i < j < |fs| ==> Rank(fs[i]) < Rank(fs[j]))
      && (forall i :: 0 <= i < |fs| ==> fs[i].charRange.None? && fs[i].page.None?)
      && (forall i :: 0 <= i < |fs| ==> fs[i].severity == (if Rank(fs[i]) == 2 then Medium else High))
  {
    RankedConcat(AutoRenewalFinding(text, fields), UnlimitedLiabilityFinding(text),
                 LiabilityCapFinding(fields), BroadIndemnityFinding(fields));
  }

  /** Rule k contributed to the findings exactly when its check fired. */
  lemma RuleFired(text: string, fields: map<string, Json>)
    ensures HasRank(RuleFindings(text, fields), 0) <==> AutoRenewalFinding(text, fields).Some?
    ensures HasRank(RuleFindings(text, fields), 1) <==> UnlimitedLiabilityFinding(text).Some?
    ensures HasRank(RuleFindings(text, fields), 2) <==> LiabilityCapFinding(fields).Some?
    ensures HasRank(RuleFindings(text, fields), 3) <==> BroadIndemnityFinding(fields).Some?
  {
    RankedConcatPresence(AutoRenewalFinding(text, fields), UnlimitedLiabilityFinding(text),
                         LiabilityCapFinding(fields), BroadIndemnityFinding(fields));
  }

  /** The unlimited-liability finding is reported exactly when both words
      occur in the lowercased text. */
  lemma UnlimitedLiabilityRule(text: string, fields: map<string, Json>)
    ensures HasRank(RuleFindings(text, fields), 1) <==> MentionsUnlimitedLiability(text)
  {
    RuleFired(text, fields);
  }

  /** The missing-cap finding is reported exactly when `liability_cap` is a
      non-empty dictionary whose amount is absent, None or zero; a missing
      or None cap reports nothing. */
  lemma LiabilityCapRule(text: string, fields: map<string, Json>)
    ensures HasRank(RuleFindings(text, fields), 2) <==>
              && "liability_cap" in fields && fields["liability_cap"].JObj?
              && |fields["liability_cap"].fields| > 0
              && var cap := fields["liability_cap"].fields;
                 "amount" !in cap || cap["amount"] == JNull || EqualsZero(cap["amount"])
  {
    RuleFired(text, fields);
  }

  /** The broad-indemnity finding is reported exactly when `indemnity` is a
      non-empty string with a broad word in its lowercase form. */
  lemma BroadIndemnityRule(text: string, fields: map<string, Json>)
    ensures HasRank(RuleFindings(text, fields), 3) <==>
              && "indemnity" in fields && fields["indemnity"].JStr?
              && |fields["indemnity"].s| > 0 && HasBroadWord(Lower(fields["indemnity"].s))
  {
    RuleFired(text, fields);
  }

  /** The broad-indemnity evidence is the clause's first 200 characters. */
  lemma IndemnityEvidence(fields: map<string, Json>)
    requires BroadIndemnityFinding(fields).Some?
    ensures var s := fields["indemnity"].s;
      var e := BroadIndemnityFinding(fields).value.evidence;
      |e| == (if |s| < 200 then |s| else 200) && e == s[..|e|]
  {
    SlicePrefix(fields["indemnity"].s, IndemnityEvidenceLimit);
  }

  /** The auto-renewal rule fires exactly when the flag is truthy, the text
      holds "30" and "day", and some notice number of the lowercased text
      (a maximal digit run followed by optional whitespace and a `d`) is
      below 30; the finding then quotes the leftmost such number and the
      evidence around the first line mentioning both "auto" and "renew". */
  lemma AutoRenewalRule(text: string, fields: map<string, Json>)
    ensures var ns := Notices(Lower(text), 0);
      AutoRenewalFinding(text, fields).Some? <==>
        && Truthy(Get(fields, "auto_renewal", JNull))
        && Contains(text, "30") && Contains(Lower(text), "day")
        && exists k :: 0 <= k < |ns| && ParseDigits(ns[k]) < NoticeDays
    ensures var ns := Notices(Lower(text), 0);
      AutoRenewalFinding(text, fields).Some? ==>
        exists k ::
          && 0 <= k < |ns| && ParseDigits(ns[k]) < NoticeDays
          && (forall j :: 0 <= j < k ==> ParseDigits(ns[j]) >= NoticeDays)
          && AutoRenewalFinding(text, fields).value == AutoRenewalNotice(text, ns[k])
  {
    FindAllNotices(Lower(text));
  }

  /** A text with no "3" in it never yields an auto-renewal finding, even
      when it states a notice period of 10 days, as in "auto-renews every
      year with 10 days notice". */
  lemma ShortNoticeWithoutThirtyIgnored(text: string, fields: map<string, Json>, p: nat)
    requires 0 < p && p + 3 < |text| && '3' !in text
    requires text[p - 1] == ' ' && text[p] == '1' && text[p + 1] == '0'
    requires text[p + 2] == ' ' && text[p + 3] == 'd'
    ensures NoticeBelow(Lower(text), p, NoticeDays)
    ensures AutoRenewalFinding(text, fields).None?
  {
    TenDays(Lower(text), p);
    NotContainsMissingChar(text, "30", '3');
  }

  /** " 10 d" holds a notice of ten days. */
  lemma TenDays(s: string, p: nat)
    requires 0 < p && p + 3 < |s|
    requires s[p - 1] == ' ' && s[p] == '1' && s[p + 1] == '0' && s[p + 2] == ' ' && s[p + 3] == 'd'
    ensures NoticeBelow(s, p, NoticeDays)
  {
    assert DigitsEnd(s, p + 2) == p + 2;
    assert SpacesEnd(s, p + 3) == p + 3;
    assert s[p..p + 2] == "10";
    assert ParseDigits("10") == 10 by {
      assert "10"[..1] == "1";
    }
  }

  /** After the keyword fallback, neither the cap rule nor the indemnity
      rule can fire, and the auto-renewal rule can fire only when the text
      mentions both "auto" and "renew". */
  lemma AuditAfterBasicExtraction(text: string, fields: map<string, Json>)
    requires IsBasicExtraction(text, fields)
    ensures !HasRank(RuleFindings(text, fields), 2)
    ensures !HasRank(RuleFindings(text, fields), 3)
    ensures HasRank(RuleFindings(text, fields), 0) ==> MentionsAutoRenewal(text)
  {
    RuleFired(text, fields);
  }
}
