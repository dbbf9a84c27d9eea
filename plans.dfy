/**
 * Condition guidance: the condition labels of `CONDITION_PATTERNS` (test.py lines 110-117),
 * the first-match-wins detection of a condition in the router (lines 465-468), and the fixed
 * advice table `condition_plan` (lines 300-324).
 *
 * The patterns are regular expressions with word boundaries; the model takes them as the
 * predicate `matches(label, text)`, true when some pattern of that label matches the text.
 */
module Plans {
  import opened Wrappers
  import opened Text

  /** `{"title": ..., "regimen": [...], "notes": [...], "red_flags": [...]}` */
  datatype Plan = Plan(title: String, regimen: seq<String>, notes: seq<String>, redFlags: seq<String>)

  /** The keys of `CONDITION_PATTERNS`, in definition order. */
  const ConditionLabels: seq<String> := ["headache", "fever", "cold_cough", "allergy", "acidity", "diarrhea"]

  /** `cond.replace('_', ' ').title()` */
  function PlanTitle(cond: String): String {
    Title(ReplaceChar(cond, '_', ' '))
  }

  /** The advice lines of `condition_plan`, numbered in order of appearance. A line is looked up
      by its number, so that a proof meets the text of a line only when it asks for it. */
  function AdviceLine(j: nat): String
    requires j < 13
  {
    match j
    case 0 => "Paracetamol 500 mg morning & night; may add midday dose if needed (max 3,000 mg/day)."
    case 1 => "If not enough: Ibuprofen 200–400 mg after food, up to every 6–8 h (max 1,200 mg/day)."
    case 2 => "worst‑ever headache"
    case 3 => "head injury"
    case 4 => "fever + neck stiffness"
    case 5 => "neurologic deficits"
    case 6 => "Paracetamol 500 mg every 6–8 h as needed (max 3,000 mg/day)."
    case 7 => "Steam/warm fluids; honey for throat (>1y)."
    case 8 => "Dry cough: Dextromethorphan 10–20 mg every 4–6 h."
    case 9 => "Runny/itchy nose: Cetirizine 10 mg at night."
    case 10 => "Cetirizine 10 mg once daily (prefer night)."
    case 11 => "Omeprazole 20 mg once daily before breakfast for 7–14 days."
    case _ => "WHO‑ORS ~200–250 ml after each loose stool; frequent sips."
  }

  function NoPlanNote(): String { "No plan available." }

  /** test.py `condition_plan(cond)`. */
  function ConditionPlan(cond: String): Plan {
    var title := PlanTitle(cond);
    if cond == "headache" then
      Plan(title, [AdviceLine(0), AdviceLine(1)], [],
           [AdviceLine(2), AdviceLine(3), AdviceLine(4), AdviceLine(5)])
    else if cond == "fever" then Plan(title, [AdviceLine(6)], [], [])
    else if cond == "cold_cough" then Plan(title, [AdviceLine(7), AdviceLine(8), AdviceLine(9)], [], [])
    else if cond == "allergy" then Plan(title, [AdviceLine(10)], [], [])
    else if cond == "acidity" then Plan(title, [AdviceLine(11)], [], [])
    else if cond == "diarrhea" then Plan(title, [AdviceLine(12)], [], [])
    else Plan(title, [], [NoPlanNote()], [])
  }

  /** Each detectable condition has a regimen and no note. */
  lemma LabelPlan(i: nat)
    requires i < |ConditionLabels|
    ensures ConditionPlan(ConditionLabels[i]).regimen != []
    ensures ConditionPlan(ConditionLabels[i]).notes == []
  {
  }

  /** Any other label gets no regimen and the single note "No plan available.". */
  lemma UnknownPlan(cond: String)
    requires cond !in ConditionLabels
    ensures ConditionPlan(cond).regimen == []
    ensures ConditionPlan(cond).notes == [NoPlanNote()]
  {
  }

  /** A regimen is given exactly for the detectable conditions. */
  lemma PlanCoverage(cond: String)
    ensures cond in ConditionLabels <==> ConditionPlan(cond).regimen != []
    ensures cond in ConditionLabels <==> ConditionPlan(cond).notes == []
  {
    if cond in ConditionLabels {
      var i :| 0 <= i < |ConditionLabels| && ConditionLabels[i] == cond;
      LabelPlan(i);
    } else {
      UnknownPlan(cond);
    }
  }

  /** Only headache carries red flags. */
  lemma PlanRedFlags(cond: String)
    ensures ConditionPlan(cond).redFlags != [] <==> cond == "headache"
  {
    if cond != "headache" {
      assert ConditionPlan(cond).redFlags == [];
    }
  }

  lemma PlanTitleAt(cond: String, i: nat)
    requires i < |cond|
    ensures |PlanTitle(cond)| == |cond|
    ensures cond[i] == '_' ==> PlanTitle(cond)[i] == ' '
    ensures IsLetter(cond[i]) ==> ToLower(PlanTitle(cond)[i]) == ToLower(cond[i])
    ensures IsLetter(cond[i]) && (i == 0 || !IsLetter(cond[i - 1])) ==> IsUpper(PlanTitle(cond)[i])
  {
    var r := ReplaceChar(cond, '_', ' ');
    assert |r| == |cond|;
    assert r[i] == if cond[i] == '_' then ' ' else cond[i];
    assert i > 0 ==> r[i - 1] == if cond[i - 1] == '_' then ' ' else cond[i - 1];
    TitleAt(r, i);
  }

  /** The title is the label with underscores turned into blanks, each word capitalised and
      every letter the label's own letter. */
  lemma PlanTitleShape(cond: String)
    ensures |PlanTitle(cond)| == |cond|
    ensures forall i :: 0 <= i < |cond| && cond[i] == '_' ==> PlanTitle(cond)[i] == ' '
    ensures forall i :: 0 <= i < |cond| && IsLetter(cond[i]) ==>
              ToLower(PlanTitle(cond)[i]) == ToLower(cond[i])
    ensures forall i :: 0 <= i < |cond| && IsLetter(cond[i]) && (i == 0 || !IsLetter(cond[i - 1])) ==>
              IsUpper(PlanTitle(cond)[i])
  {
    assert |ReplaceChar(cond, '_', ' ')| == |cond|;
    forall i | 0 <= i < |cond|
      ensures cond[i] == '_' ==> PlanTitle(cond)[i] == ' '
      ensures IsLetter(cond[i]) ==> ToLower(PlanTitle(cond)[i]) == ToLower(cond[i])
      ensures IsLetter(cond[i]) && (i == 0 || !IsLetter(cond[i - 1])) ==> IsUpper(PlanTitle(cond)[i])
    {
      PlanTitleAt(cond, i);
    }
  }

  /** The first label of `labels` whose patterns match `t`; None stands for `cond = ""`. */
  function FirstMatch(labels: seq<String>, t: String, matches: (String, String) -> bool): Option<String>
    decreases |labels|
  {
    if labels == [] then None
    else if matches(labels[0], t) then Some(labels[0])
    else FirstMatch(labels[1..], t, matches)
  }

  /** Detection picks the earliest matching label, and nothing exactly when no label matches. */
  lemma {:induction false} FirstMatchFacts(labels: seq<String>, t: String, matches: (String, String) -> bool)
    ensures FirstMatch(labels, t, matches).None? <==>
            forall i :: 0 <= i < |labels| ==> !matches(labels[i], t)
    ensures FirstMatch(labels, t, matches).Some? ==>
            exists i :: 0 <= i < |labels| && labels[i] == FirstMatch(labels, t, matches).value &&
                        matches(labels[i], t) && forall j :: 0 <= j < i ==> !matches(labels[j], t)
    decreases |labels|
  {
    if labels != [] && !matches(labels[0], t) {
      var rest := labels[1..];
      FirstMatchFacts(rest, t, matches);
      if FirstMatch(rest, t, matches).Some? {
        var i :| 0 <= i < |rest| && rest[i] == FirstMatch(rest, t, matches).value &&
                 matches(rest[i], t) && forall j :: 0 <= j < i ==> !matches(rest[j], t);
        forall j | 0 <= j < i + 1 ensures !matches(labels[j], t) {
          if j > 0 { assert labels[j] == rest[j - 1]; }
        }
        assert labels[i + 1] == rest[i];
      } else {
        forall i | 0 <= i < |labels| ensures !matches(labels[i], t) {
          if i > 0 { assert labels[i] == rest[i - 1]; }
        }
      }
    }
  }

  lemma MatchStep(labels: seq<String>, t: String, matches: (String, String) -> bool, i: nat)
    requires i < |labels|
    ensures FirstMatch(labels[i..], t, matches) ==
            if matches(labels[i], t) then Some(labels[i]) else FirstMatch(labels[i + 1..], t, matches)
  {
    assert labels[i..][1..] == labels[i + 1..];
  }

  /** The condition loop of the router: the first label whose patterns match, then `break`. */
  method DetectCondition(t: String, matches: (String, String) -> bool) returns (cond: Option<String>)
    ensures cond == FirstMatch(ConditionLabels, t, matches)
  {
    var labels := ConditionLabels;
    cond := None;
    assert labels[0..] == labels;
    var i := 0;
    while i < |labels|
      invariant 0 <= i <= |labels|
      invariant FirstMatch(labels, t, matches) == FirstMatch(labels[i..], t, matches)
    {
      MatchStep(labels, t, matches, i);
      if matches(labels[i], t) {
        cond := Some(labels[i]);
        break;
      }
      i := i + 1;
    }
  }
}
