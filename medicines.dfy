/**
 * The medicine knowledge base `KB` of test.py (lines 66-107) and the lookup `find_drug`
 * (lines 267-276): the first record, in definition order, one of whose aliases occurs in the
 * normalised text, else the first record whose key occurs in it.
 */
module Medicines {
  import opened Wrappers
  import opened Text

  /** One record of `KB`; `key` is its dictionary key and `drugClass` its "class" entry. */
  datatype Drug = Drug(
    key: String,
    aliases: seq<String>,
    drugClass: String,
    adultDose: String,
    notes: String,
    contraindications: seq<String>,
    cautions: seq<String>)

  /** `KB`, in definition order (Python dictionaries keep insertion order). */
  function Kb(): seq<Drug> {
    seq(5, i requires 0 <= i < 5 => KbEntry(i))
  }

  /** Record i of `KB`, counting from 0. */
  function KbEntry(i: nat): Drug
    requires i < 5
  {
    match i
    case 0 =>
      Drug("paracetamol",
        ["paracetamol", "acetaminophen", "pcm", "crocin"],
        KbProse(0),
        KbProse(1),
        KbProse(2),
        ["severe_liver_disease"],
        ["liver_disease", "alcohol_use"])
    case 1 =>
      Drug("ibuprofen",
        ["ibuprofen", "brufen", "advil"],
        KbProse(3),
        KbProse(4),
        KbProse(5),
        ["active_ulcer", "severe_kidney_disease"],
        ["asthma", "gastritis"])
    case 2 =>
      Drug("cetirizine",
        ["cetirizine", "cetzine", "zyrtec"],
        KbProse(6),
        KbProse(7),
        KbProse(8),
        [],
        ["alcohol_use"])
    case 3 =>
      Drug("omeprazole",
        ["omeprazole", "omez", "prilosec"],
        KbProse(9),
        KbProse(10),
        KbProse(11),
        [],
        [])
    case _ =>
      Drug("ors",
        ["ors", "oral rehydration", "oral rehydration salts"],
        KbProse(12),
        KbProse(13),
        KbProse(14),
        [],
        [])
  }

  /** The descriptive texts of `KB` ("class", "adult_dose", "notes"), numbered in order of
      appearance. A text is looked up by its number, so that a proof meets it only when it asks
      for it. */
  function KbProse(j: nat): String
    requires j < 15
  {
    match j
    case 0 => "Analgesic/antipyretic"
    case 1 => "500 mg every 6–8 hours as needed; do not exceed 3,000 mg/day."
    case 2 => "Avoid combining with other acetaminophen‑containing products."
    case 3 => "NSAID"
    case 4 => "200–400 mg every 6–8 hours **after food**; max 1,200 mg/day."
    case 5 => "May irritate stomach; avoid in active ulcers."
    case 6 => "Antihistamine"
    case 7 => "10 mg once daily (may cause drowsiness)."
    case 8 => "Avoid driving/operating machinery if drowsy."
    case 9 => "Proton pump inhibitor"
    case 10 => "20 mg once daily before breakfast for 7–14 days."
    case 11 => "Seek care if alarm features (bleeding, black stools, severe pain)."
    case 12 => "Rehydration solution"
    case 13 => "Small frequent sips; ~200–250 ml after each loose stool."
    case _ => "Use WHO‑ORS; avoid sugary sodas."
  }

  /** Some alias of `d` occurs in `t`. */
  predicate AliasIn(d: Drug, t: String) {
    exists a :: a in d.aliases && Contains(t, a)
  }

  /** The first record of `kb` with an alias occurring in `t`: the first loop of `find_drug`. */
  function FirstByAlias(kb: seq<Drug>, t: String): Option<Drug>
    decreases |kb|
  {
    if kb == [] then None
    else if AliasIn(kb[0], t) then Some(kb[0])
    else FirstByAlias(kb[1..], t)
  }

  /** The first record of `kb` whose key occurs in `t`: the second loop of `find_drug`. */
  function FirstByKey(kb: seq<Drug>, t: String): Option<Drug>
    decreases |kb|
  {
    if kb == [] then None
    else if Contains(t, kb[0].key) then Some(kb[0])
    else FirstByKey(kb[1..], t)
  }

  /** Both passes of `find_drug` over an already normalised text; None stands for ("", {}). */
  function Lookup(kb: seq<Drug>, t: String): Option<Drug> {
    var byAlias := FirstByAlias(kb, t);
    if byAlias.Some? then byAlias else FirstByKey(kb, t)
  }

  /** test.py `find_drug(user_text)`. */
  function DrugFor(userText: String): Option<Drug> {
    Lookup(Kb(), Normalize(userText))
  }

  /** The alias pass finds the earliest record with a matching alias, and finds nothing
      exactly when no record has one. */
  lemma {:induction false} FirstByAliasFacts(kb: seq<Drug>, t: String)
    ensures FirstByAlias(kb, t).None? <==> forall i :: 0 <= i < |kb| ==> !AliasIn(kb[i], t)
    ensures FirstByAlias(kb, t).Some? ==>
            exists i :: 0 <= i < |kb| && kb[i] == FirstByAlias(kb, t).value && AliasIn(kb[i], t) &&
                        forall j :: 0 <= j < i ==> !AliasIn(kb[j], t)
    decreases |kb|
  {
    if kb != [] && !AliasIn(kb[0], t) {
      FirstByAliasFacts(kb[1..], t);
      if FirstByAlias(kb, t).Some? {
        var i :| 0 <= i < |kb[1..]| && kb[1..][i] == FirstByAlias(kb, t).value && AliasIn(kb[1..][i], t) &&
                 forall j :: 0 <= j < i ==> !AliasIn(kb[1..][j], t);
        forall j | 0 <= j < i + 1 ensures !AliasIn(kb[j], t) {
          if j > 0 { assert kb[j] == kb[1..][j - 1]; }
        }
      } else {
        forall i | 0 <= i < |kb| ensures !AliasIn(kb[i], t) {
          if i > 0 { assert kb[i] == kb[1..][i - 1]; }
        }
      }
    }
  }

  /** The key pass finds nothing exactly when no key occurs in the text. */
  lemma {:induction false} FirstByKeyNone(kb: seq<Drug>, t: String)
    ensures FirstByKey(kb, t).None? <==> forall i :: 0 <= i < |kb| ==> !Contains(t, kb[i].key)
    decreases |kb|
  {
    if kb != [] && !Contains(t, kb[0].key) {
      FirstByKeyNone(kb[1..], t);
      if FirstByKey(kb, t).None? {
        forall i | 0 <= i < |kb| ensures !Contains(t, kb[i].key) {
          if i > 0 { assert kb[i] == kb[1..][i - 1]; }
        }
      } else {
        assert exists i :: 0 <= i < |kb[1..]| && Contains(t, kb[1..][i].key);
      }
    }
  }

  /** `find_drug` returns ("", {}) exactly when no alias and no key of any record occurs in
      the normalised text. */
  lemma LookupNone(kb: seq<Drug>, t: String)
    ensures Lookup(kb, t).None? <==>
            forall i :: 0 <= i < |kb| ==> !AliasIn(kb[i], t) && !Contains(t, kb[i].key)
  {
    FirstByAliasFacts(kb, t);
    FirstByKeyNone(kb, t);
  }

  /** When every record lists its own key among its aliases, the key pass never changes the
      result: a key hit is an alias hit of the same record. */
  lemma {:induction false} KeyPassRedundant(kb: seq<Drug>, t: String)
    requires forall i :: 0 <= i < |kb| ==> kb[i].key in kb[i].aliases
    ensures Lookup(kb, t) == FirstByAlias(kb, t)
  {
    FirstByAliasFacts(kb, t);
    FirstByKeyNone(kb, t);
  }

  /** Every record of `KB` lists its key among its aliases. */
  lemma KbKeysAreAliases()
    ensures forall i :: 0 <= i < |Kb()| ==> Kb()[i].key in Kb()[i].aliases
  {
  }

  /** So for `KB`, `find_drug` is the earliest record with an alias in the normalised text,
      and ("", {}) when there is none. */
  lemma DrugForIsFirstAlias(userText: String)
    ensures DrugFor(userText) == FirstByAlias(Kb(), Normalize(userText))
    ensures DrugFor(userText).None? <==>
            forall i :: 0 <= i < |Kb()| ==> !AliasIn(Kb()[i], Normalize(userText))
    ensures DrugFor(userText).Some? ==>
            exists i :: 0 <= i < |Kb()| && Kb()[i] == DrugFor(userText).value &&
                        AliasIn(Kb()[i], Normalize(userText)) &&
                        forall j :: 0 <= j < i ==> !AliasIn(Kb()[j], Normalize(userText))
  {
    KbKeysAreAliases();
    KeyPassRedundant(Kb(), Normalize(userText));
    FirstByAliasFacts(Kb(), Normalize(userText));
  }

  /** Normalising a text twice looks up the same record: the router passes `normalize(prompt)`
      to `find_drug`, which normalises again. */
  lemma DrugForNormalized(userText: String)
    ensures DrugFor(Normalize(userText)) == DrugFor(userText)
  {
    NormalizeIdempotent(userText);
  }

  lemma AliasStep(kb: seq<Drug>, t: String, i: nat)
    requires i < |kb|
    ensures FirstByAlias(kb[i..], t) ==
            if AliasIn(kb[i], t) then Some(kb[i]) else FirstByAlias(kb[i + 1..], t)
  {
    assert kb[i..][1..] == kb[i + 1..];
  }

  lemma KeyStep(kb: seq<Drug>, t: String, i: nat)
    requires i < |kb|
    ensures FirstByKey(kb[i..], t) ==
            if Contains(t, kb[i].key) then Some(kb[i]) else FirstByKey(kb[i + 1..], t)
  {
    assert kb[i..][1..] == kb[i + 1..];
  }

  lemma NoAliasIn(d: Drug, t: String)
    requires forall m :: 0 <= m < |d.aliases| ==> !Contains(t, d.aliases[m])
    ensures !AliasIn(d, t)
  {
  }

  /** test.py `find_drug`: two nested loops over the records and their aliases, then one over
      the keys, each returning at the first hit. */
  method FindDrug(kb: seq<Drug>, userText: String) returns (r: Option<Drug>)
    ensures r == Lookup(kb, Normalize(userText))
  {
    var t := Normalize(userText);
    assert kb[0..] == kb;
    for i := 0 to |kb|
      invariant FirstByAlias(kb, t) == FirstByAlias(kb[i..], t)
    {
      AliasStep(kb, t, i);
      var aliases := kb[i].aliases;
      for j := 0 to |aliases|
        invariant forall m :: 0 <= m < j ==> !Contains(t, aliases[m])
      {
        if Contains(t, aliases[j]) {
          return Some(kb[i]);
        }
      }
      NoAliasIn(kb[i], t);
    }
    for i := 0 to |kb|
      invariant FirstByKey(kb, t) == FirstByKey(kb[i..], t)
    {
      KeyStep(kb, t, i);
      if Contains(t, kb[i].key) {
        return Some(kb[i]);
      }
    }
    return None;
  }
}
