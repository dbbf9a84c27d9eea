/**
 * The chat router of test.py (lines 446-506) and the session state it reads: one prompt is
 * answered by the first of five branches that applies, in this order: an answer from the
 * Q&A corpus, a greeting, advice for a detected condition (with the safety flags of every
 * KB medicine the advice mentions), the record of a named medicine (with its flags), and
 * the "not trained" fallback.
 *
 * The greeting regular expression and the condition patterns are the parameters `greets` and
 * `matches`; difflib's sequence ratio is the parameter `ratio`.
 */
module Router {
  import opened Wrappers
  import opened Text
  import opened Corpus
  import opened Retrieval
  import opened Medicines
  import opened Safety
  import opened Plans
  import opened Sequences

  /** What the assistant answers; `contra` and `caution` are the two lists of `render_flags`. */
  datatype Response =
    | FromQna(answer: Answer)
    | Greeting
    | ConditionAdvice(plan: Plan, contra: seq<String>, caution: seq<String>)
    | DrugAdvice(drug: Drug, contra: seq<String>, caution: seq<String>)
    | NotTrained

  /** `best_qna_answer`'s defaults: k = 3, min_score = 0.5. */
  const TopK: int := 3
  const MinScore: real := 0.5

  /** `st.session_state.custom_qna if st.session_state.custom_qna else DEFAULT_QNA` */
  function ActiveCorpus(custom: seq<QnA>): (base: seq<QnA>)
    ensures base != []
    ensures custom != [] ==> base == custom
    ensures custom == [] ==> base == DefaultQna()
  {
    if custom != [] then custom else DefaultQna()
  }

  /** The flags `check_profile_vs_drug` raises for a KB record when one of its aliases occurs
      in `text`, and none otherwise. */
  function Raised(p: Profile, text: String): Drug -> seq<Flag> {
    d => if AliasIn(d, text) then Flags(p, d) else []
  }

  /** The flags gathered for a condition plan: for every KB record, in KB order, one of whose
      aliases occurs in `text`, the flags `check_profile_vs_drug` raises for it. */
  function PlanFlags(p: Profile, kb: seq<Drug>, text: String): seq<Flag> {
    FlatMap(kb, Raised(p, text))
  }

  /** The text the badge loop searches: the regimen lines joined by blanks, lower-cased. */
  function RegimenText(plan: Plan): String {
    Lower(Join(" ", plan.regimen))
  }

  /** The answer for a detected condition: its plan with the flags of the medicines the
      plan mentions. */
  function ConditionReply(p: Profile, plan: Plan): Response {
    var flags := PlanFlags(p, Kb(), RegimenText(plan));
    ConditionAdvice(plan, Details(flags, Contraindication), Details(flags, Caution))
  }

  /** The answer for a named medicine: its record with its flags. */
  function DrugReply(p: Profile, d: Drug): Response {
    var flags := Flags(p, d);
    DrugAdvice(d, Details(flags, Contraindication), Details(flags, Caution))
  }

  /** The chain after the corpus lookup, given its result `ans` and the normalised prompt `t`. */
  function Route(p: Profile, ans: Option<Answer>, t: String, greets: String -> bool,
                 matches: (String, String) -> bool): Response
  {
    if ans.Some? then FromQna(ans.value)
    else if greets(t) then Greeting
    else
      var cond := FirstMatch(ConditionLabels, t, matches);
      if cond.Some? then ConditionReply(p, ConditionPlan(cond.value))
      else
        var drug := DrugFor(t);
        if drug.Some? then DrugReply(p, drug.value) else NotTrained
  }

  /** The reply to `prompt` for profile `p` over the corpus `base`. */
  function Reply(p: Profile, base: seq<QnA>, prompt: String, ratio: (String, String) -> real,
                 greets: String -> bool, matches: (String, String) -> bool): Response
  {
    Route(p, BestAnswer(prompt, base, TopK, MinScore, ratio), Normalize(prompt), greets, matches)
  }

  // ---------------------------------------------------------------------------------------
  // The priority order
  // ---------------------------------------------------------------------------------------

  /** Which branch `Route` takes, in terms of the lookups it makes. */
  lemma RouteBranches(p: Profile, ans: Option<Answer>, t: String, greets: String -> bool,
                      matches: (String, String) -> bool)
    ensures var r := Route(p, ans, t, greets, matches);
            var cond := FirstMatch(ConditionLabels, t, matches);
            && (r.ConditionAdvice? <==> ans.None? && !greets(t) && cond.Some?)
            && (r.ConditionAdvice? ==> r == ConditionReply(p, ConditionPlan(cond.value)))
            && (r.DrugAdvice? <==> ans.None? && !greets(t) && cond.None? && DrugFor(t).Some?)
            && (r.DrugAdvice? ==> r == DrugReply(p, DrugFor(t).value))
            && (r.NotTrained? <==> ans.None? && !greets(t) && cond.None? && DrugFor(t).None?)
  {
  }

  /** The corpus answer wins whenever there is one; otherwise a greeting is given exactly
      when the normalised prompt greets. */
  lemma RouteHead(p: Profile, ans: Option<Answer>, t: String, greets: String -> bool,
                  matches: (String, String) -> bool)
    ensures Route(p, ans, t, greets, matches).FromQna? <==> ans.Some?
    ensures ans.Some? ==> Route(p, ans, t, greets, matches) == FromQna(ans.value)
    ensures Route(p, ans, t, greets, matches).Greeting? <==> ans.None? && greets(t)
  {
  }

  /** Condition advice is given exactly when neither of the above applies and some condition
      label matches; the plan is that of the first matching label in `CONDITION_PATTERNS`
      order, and it always has a regimen. */
  lemma RouteCondition(p: Profile, ans: Option<Answer>, t: String, greets: String -> bool,
                       matches: (String, String) -> bool)
    ensures Route(p, ans, t, greets, matches).ConditionAdvice? <==>
            ans.None? && !greets(t) && exists i :: 0 <= i < |ConditionLabels| && matches(ConditionLabels[i], t)
    ensures var r := Route(p, ans, t, greets, matches);
            r.ConditionAdvice? ==>
              exists i :: 0 <= i < |ConditionLabels| && matches(ConditionLabels[i], t) &&
                (forall j :: 0 <= j < i ==> !matches(ConditionLabels[j], t)) &&
                r == ConditionReply(p, ConditionPlan(ConditionLabels[i])) && r.plan.regimen != []
  {
    RouteBranches(p, ans, t, greets, matches);
    FirstMatchFacts(ConditionLabels, t, matches);
    var cond := FirstMatch(ConditionLabels, t, matches);
    if ans.None? && !greets(t) && cond.Some? {
      var i :| 0 <= i < |ConditionLabels| && ConditionLabels[i] == cond.value &&
               matches(ConditionLabels[i], t) && forall j :: 0 <= j < i ==> !matches(ConditionLabels[j], t);
      LabelPlan(i);
    }
  }

  /** Medicine advice is given exactly when none of the above applies and some KB alias occurs
      in the (normalised) prompt; the record is the earliest such one in KB order. The
      fallback is given exactly when no branch applies. */
  lemma RouteDrug(p: Profile, ans: Option<Answer>, t: String, greets: String -> bool,
                  matches: (String, String) -> bool)
    requires t == Normalize(t)
    ensures Route(p, ans, t, greets, matches).DrugAdvice? <==>
            ans.None? && !greets(t) &&
            (forall i :: 0 <= i < |ConditionLabels| ==> !matches(ConditionLabels[i], t)) &&
            exists i :: 0 <= i < |Kb()| && AliasIn(Kb()[i], t)
    ensures var r := Route(p, ans, t, greets, matches);
            r.DrugAdvice? ==>
              exists i :: 0 <= i < |Kb()| && AliasIn(Kb()[i], t) &&
                (forall j :: 0 <= j < i ==> !AliasIn(Kb()[j], t)) && r == DrugReply(p, Kb()[i])
    ensures Route(p, ans, t, greets, matches).NotTrained? <==>
            ans.None? && !greets(t) &&
            (forall i :: 0 <= i < |ConditionLabels| ==> !matches(ConditionLabels[i], t)) &&
            (forall i :: 0 <= i < |Kb()| ==> !AliasIn(Kb()[i], t))
  {
    RouteBranches(p, ans, t, greets, matches);
    FirstMatchFacts(ConditionLabels, t, matches);
    DrugForIsFirstAlias(t);
  }

  /** The whole router for one prompt, with `custom` the uploaded entries: the prompt is ranked
      against the active corpus with k = 3 and threshold 0.5, and the other branches look at
      the normalised prompt. Each branch is taken exactly when every earlier one fails and its
      own test succeeds. */
  lemma ReplyRoutes(p: Profile, custom: seq<QnA>, prompt: String, ratio: (String, String) -> real,
                    greets: String -> bool, matches: (String, String) -> bool)
    ensures var r := Reply(p, ActiveCorpus(custom), prompt, ratio, greets, matches);
            var ans := BestAnswer(prompt, ActiveCorpus(custom), 3, 0.5, ratio);
            var t := Normalize(prompt);
            && (r.FromQna? <==> ans.Some?)
            && (ans.Some? ==> r == FromQna(ans.value))
            && (r.Greeting? <==> ans.None? && greets(t))
            && (r.ConditionAdvice? <==>
                  ans.None? && !greets(t) &&
                  exists i :: 0 <= i < |ConditionLabels| && matches(ConditionLabels[i], t))
            && (r.DrugAdvice? <==>
                  ans.None? && !greets(t) &&
                  (forall i :: 0 <= i < |ConditionLabels| ==> !matches(ConditionLabels[i], t)) &&
                  exists i :: 0 <= i < |Kb()| && AliasIn(Kb()[i], t))
            && (r.NotTrained? <==>
                  ans.None? && !greets(t) &&
                  (forall i :: 0 <= i < |ConditionLabels| ==> !matches(ConditionLabels[i], t)) &&
                  (forall i :: 0 <= i < |Kb()| ==> !AliasIn(Kb()[i], t)))
  {
    var ans := BestAnswer(prompt, ActiveCorpus(custom), TopK, MinScore, ratio);
    var t := Normalize(prompt);
    NormalizeIdempotent(prompt);
    RouteHead(p, ans, t, greets, matches);
    RouteCondition(p, ans, t, greets, matches);
    RouteDrug(p, ans, t, greets, matches);
  }

  // ---------------------------------------------------------------------------------------
  // The flags shown with advice
  // ---------------------------------------------------------------------------------------

  /** A flag is gathered for a plan exactly when some KB record mentioned in the text raises
      it. */
  lemma PlanFlagsMembers(p: Profile, kb: seq<Drug>, text: String, f: Flag)
    ensures f in PlanFlags(p, kb, text) <==>
            exists i :: 0 <= i < |kb| && AliasIn(kb[i], text) && f in Flags(p, kb[i])
  {
    FlatMapMembers(kb, Raised(p, text), f);
  }

  /** With condition advice, a code is listed as a contraindication exactly when some KB
      medicine the regimen mentions lists it as a contraindication and the profile has it as a
      condition or an allergy; as a caution exactly when such a medicine lists it as a caution
      and the profile has it as a condition, an allergy or a regular medicine. */
  lemma ConditionAdviceFlags(p: Profile, plan: Plan, c: String)
    ensures c in ConditionReply(p, plan).contra <==>
            (c in p.conditions || c in p.allergies) &&
            exists i :: 0 <= i < |Kb()| && AliasIn(Kb()[i], RegimenText(plan)) && c in Kb()[i].contraindications
    ensures c in ConditionReply(p, plan).caution <==>
            (c in p.conditions || c in p.allergies || c in p.meds) &&
            exists i :: 0 <= i < |Kb()| && AliasIn(Kb()[i], RegimenText(plan)) && c in Kb()[i].cautions
  {
    var text := RegimenText(plan);
    var flags := PlanFlags(p, Kb(), text);
    DetailsMembers(flags, Contraindication, c);
    DetailsMembers(flags, Caution, c);
    PlanFlagsMembers(p, Kb(), text, Flag(Contraindication, c));
    PlanFlagsMembers(p, Kb(), text, Flag(Caution, c));
    forall i | 0 <= i < |Kb()| {
      FlagIff(p, Kb()[i], c);
    }
  }

  /** With medicine advice, the two lists are the record's contraindications and cautions
      that the profile hits, in the record's order. */
  lemma DrugAdviceFlags(p: Profile, d: Drug)
    ensures DrugReply(p, d).contra == Hits(d.contraindications, p.conditions + p.allergies)
    ensures DrugReply(p, d).caution == Hits(d.cautions, p.conditions + p.allergies + p.meds)
  {
    RenderOfFlags(p, d);
  }

  lemma EmptyIfNoMember(s: seq<String>)
    ensures (forall c :: c !in s) ==> s == []
  {
    if s != [] {
      assert s[0] in s;
    }
  }

  /** A profile without conditions, allergies or medicines sees no flag in condition advice. */
  lemma ConditionReplyNoFlags(p: Profile, plan: Plan)
    requires p.conditions == [] && p.allergies == [] && p.meds == []
    ensures ConditionReply(p, plan).contra == [] && ConditionReply(p, plan).caution == []
  {
    var r := ConditionReply(p, plan);
    forall c | true
      ensures c !in r.contra && c !in r.caution
    {
      ConditionAdviceFlags(p, plan, c);
    }
    EmptyIfNoMember(r.contra);
    EmptyIfNoMember(r.caution);
  }

  /** A profile without conditions, allergies or medicines sees no flag in medicine advice. */
  lemma DrugReplyNoFlags(p: Profile, d: Drug)
    requires p.conditions == [] && p.allergies == [] && p.meds == []
    ensures DrugReply(p, d).contra == [] && DrugReply(p, d).caution == []
  {
    DrugAdviceFlags(p, d);
    HitsMembers(d.contraindications, p.conditions + p.allergies);
    HitsMembers(d.cautions, p.conditions + p.allergies + p.meds);
    EmptyIfNoMember(DrugReply(p, d).contra);
    EmptyIfNoMember(DrugReply(p, d).caution);
  }

  /** A profile without conditions, allergies or medicines (the default one) never sees a flag,
      whatever the reply. */
  lemma NoCodesNoFlags(p: Profile, ans: Option<Answer>, t: String, greets: String -> bool,
                       matches: (String, String) -> bool)
    requires p.conditions == [] && p.allergies == [] && p.meds == []
    ensures var r := Route(p, ans, t, greets, matches);
            (r.ConditionAdvice? || r.DrugAdvice?) ==> r.contra == [] && r.caution == []
  {
    RouteBranches(p, ans, t, greets, matches);
    var cond := FirstMatch(ConditionLabels, t, matches);
    if cond.Some? {
      ConditionReplyNoFlags(p, ConditionPlan(cond.value));
    }
    if DrugFor(t).Some? {
      DrugReplyNoFlags(p, DrugFor(t).value);
    }
  }

  // ---------------------------------------------------------------------------------------
  // The imperative router
  // ---------------------------------------------------------------------------------------

  /** `any(a in text for a in KB[dk]["aliases"])` */
  method MentionsDrug(d: Drug, text: String) returns (hit: bool)
    ensures hit == AliasIn(d, text)
  {
    var aliases := d.aliases;
    hit := false;
    var j := 0;
    while j < |aliases|
      invariant 0 <= j <= |aliases|
      invariant forall m :: 0 <= m < j ==> !Contains(text, aliases[m])
    {
      if Contains(text, aliases[j]) {
        hit := true;
        assert aliases[j] in d.aliases;
        return;
      }
      j := j + 1;
    }
    NoAliasIn(d, text);
  }

  /** The badge loop: `flags += check_profile_vs_drug(p, dk)["flags"]` for each KB record
      mentioned in `text`. */
  method CollectPlanFlags(p: Profile, kb: seq<Drug>, text: String) returns (flags: seq<Flag>)
    ensures flags == PlanFlags(p, kb, text)
  {
    flags := [];
    for i := 0 to |kb|
      invariant flags == PlanFlags(p, kb[..i], text)
    {
      FlatMapSnoc(kb, Raised(p, text), i);
      var hit := MentionsDrug(kb[i], text);
      if hit {
        var more := CheckProfile(p, kb[i]);
        flags := flags + more;
      }
    }
    assert kb[..|kb|] == kb;
  }
}
