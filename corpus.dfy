/**
 * The question/answer corpus: the built-in entries of test.py and the merge step that runs
 * when files are uploaded (test.py lines 392-399), which keeps the first entry for each
 * non-empty `_norm` form of the question.
 */
module Corpus {
  import opened Text
  import opened Sequences

  /** One entry; `src` is the uploaded file's name, or "builtin", which is what
      `item.get("src", "builtin")` yields for the built-in entries, which carry no source. */
  datatype QnA = QnA(q: String, a: String, src: String)

  const Builtin: String := "builtin"

  /** test.py `DEFAULT_QNA` (lines 122-154): the built-in entries, in definition order. */
  function DefaultQna(): seq<QnA> {
    seq(28, i requires 0 <= i < 28 => BuiltinEntry(i))
  }

  /** Entry i of `DEFAULT_QNA`, counting from 0. */
  function BuiltinEntry(i: nat): QnA
    requires i < 28
  {
    match i
    case 0 =>
      QnA("What are the early signs of diabetes?",
          "Excess thirst/urination, fatigue, blurry vision, slow‑healing wounds, unexplained weight loss.", Builtin)
    case 1 =>
      QnA("How is diabetes diagnosed?",
          "Fasting glucose ≥126 mg/dL, A1c ≥6.5%, random glucose ≥200 mg/dL with symptoms, or failed oral glucose tolerance.", Builtin)
    case 2 =>
      QnA("What’s a good A1c target?",
          "Most adults: <7%. Older/complex patients may aim a bit higher; individualize with a doctor.", Builtin)
    case 3 =>
      QnA("Do I need medicine or can diet fix it?",
          "Type 2: start with diet/exercise; metformin is first‑line if targets aren’t met. Type 1 always needs insulin.", Builtin)
    case 4 =>
      QnA("What should I eat?",
          "High fiber, lean protein, non‑starchy veggies; limit refined carbs/sugary drinks; consistent portions; track carbs.", Builtin)
    case 5 =>
      QnA("How often should I check sugar?",
          "On insulin: multiple times daily or use CGM. On pills/stable: at least a few times/week and before key changes.", Builtin)
    case 6 =>
      QnA("What to do for low sugar (hypo)?",
          "If <70 mg/dL or symptoms: take 15 g fast carbs (glucose tabs/juice), recheck in 15 min, repeat if needed.", Builtin)
    case 7 =>
      QnA("High sugar?",
          "Hydrate, walk (if no ketones/illness), check ketones if >250 mg/dL, adjust per plan, call doctor if persistent.", Builtin)
    case 8 =>
      QnA("Must‑have yearly checks?",
          "Eyes (retina), kidney (urine albumin), feet/neuropathy, lipids, blood pressure, vaccines.", Builtin)
    case 9 =>
      QnA("Can diabetes be reversed?",
          "Type 2: remission possible with weight loss, diet, and activity (not guaranteed). Type 1: cannot be reversed.", Builtin)
    case 10 =>
      QnA("What are general red flags?",
          "Unintentional weight loss, persistent pain, new lumps, abnormal bleeding, non‑healing sores, cough/voice change >3 weeks.", Builtin)
    case 11 =>
      QnA("How is cancer confirmed?",
          "Biopsy. Imaging suggests; pathology proves.", Builtin)
    case 12 =>
      QnA("What does stage mean?",
          "Extent of spread (size, nodes, metastasis). Stage drives treatment and prognosis.", Builtin)
    case 13 =>
      QnA("Do all cancers need chemo?",
          "No. Some need surgery only; others get radiation, targeted therapy, immunotherapy, or combinations.", Builtin)
    case 14 =>
      QnA("Are chemo side effects inevitable?",
          "Common (fatigue, nausea, hair loss), but modern anti‑nausea and supportive meds reduce them significantly.", Builtin)
    case 15 =>
      QnA("Should I take supplements during treatment?",
          "Don’t start anything without oncologist approval — some interact and blunt treatment.", Builtin)
    case 16 =>
      QnA("Is screening actually useful?",
          "Yes — colon, breast, cervical, and high‑risk lung screenings cut deaths when done on schedule.", Builtin)
    case 17 =>
      QnA("Can lifestyle affect outcomes?",
          "Yes. No tobacco/alcohol moderation, exercise, weight control, and good sleep improve tolerance and survival odds.", Builtin)
    case 18 =>
      QnA("What is an abdominal ultrasound?",
          "A non‑invasive test using high‑frequency sound waves to image abdominal organs (liver, kidneys, pancreas, gallbladder, spleen, aorta).", Builtin)
    case 19 =>
      QnA("Why is an abdominal ultrasound done?",
          "To evaluate pain, swelling, abnormal labs, liver disease, gallstones/kidney stones, tumors, or internal bleeding after trauma.", Builtin)
    case 20 =>
      QnA("Is abdominal ultrasound safe?",
          "Yes. No radiation; painless; no known side effects when performed correctly.", Builtin)
    case 21 =>
      QnA("How should I prepare for an abdominal ultrasound?",
          "Usually fast 8 hours to keep stomach empty and reduce gas; sometimes arrive with full bladder if instructed.", Builtin)
    case 22 =>
      QnA("What happens during the procedure?",
          "You lie down; gel applied; a probe is moved over the abdomen to capture images on a screen.", Builtin)
    case 23 =>
      QnA("How long does the test take?",
          "About 20–30 minutes depending on how many organs are examined.", Builtin)
    case 24 =>
      QnA("Does it hurt?",
          "No. It’s painless, though you may feel mild pressure or cool gel.", Builtin)
    case 25 =>
      QnA("What problems can an abdominal ultrasound detect?",
          "Cirrhosis, gallstones, kidney stones, tumors/cysts, fluid, blocked bile ducts, enlarged organs, abdominal aortic aneurysm.", Builtin)
    case 26 =>
      QnA("Are there limitations to this test?",
          "Gas/obesity can reduce image quality; intestines and bone are harder to see. CT/MRI may be needed for more detail.", Builtin)
    case _ =>
      QnA("What do normal and abnormal results mean?",
          "Normal: organs look healthy; Abnormal: stones, cysts, tumors, infection, organ damage, or bleeding — may need further tests/treatment.", Builtin)
  }

  /** The deduplication key `_norm(item["q"])`. The merge facts below hold for any key
      function; the merge step uses this one. */
  function Key(e: QnA): String { NormCompare(e.q) }

  type KeyOf = QnA -> String

  /** The non-empty keys present in `s`. */
  function Keys(s: seq<QnA>, key: KeyOf): set<String> {
    set e | e in s && key(e) != [] :: key(e)
  }

  lemma KeysConcat(a: seq<QnA>, b: seq<QnA>, key: KeyOf)
    ensures Keys(a + b, key) == Keys(a, key) + Keys(b, key)
  {
    assert forall e :: e in a + b <==> e in a || e in b;
  }

  lemma KeysSingle(x: QnA, key: KeyOf)
    ensures Keys([x], key) == if key(x) != [] then {key(x)} else {}
  {
  }

  /** Index `i` holds the first entry of `s` with its key, and that key is not empty. */
  predicate IsFirst(s: seq<QnA>, i: nat, key: KeyOf)
    requires i < |s|
  {
    key(s[i]) != [] && forall j :: 0 <= j < i ==> key(s[j]) != key(s[i])
  }

  /** The entries of `s` that are the first with their non-empty key, in corpus order: what
      the merge step keeps. */
  function Firsts(s: seq<QnA>, key: KeyOf): seq<QnA>
    decreases |s|
  {
    if s == [] then []
    else Firsts(s[..|s| - 1], key) + (if IsFirst(s, |s| - 1, key) then [s[|s| - 1]] else [])
  }

  /** Every entry has a non-empty key and no two entries share one. */
  predicate KeyedUniquely(s: seq<QnA>, key: KeyOf) {
    && (forall i :: 0 <= i < |s| ==> key(s[i]) != [])
    && (forall i, j :: 0 <= i < j < |s| ==> key(s[i]) != key(s[j]))
  }

  /** Appending one entry adds it exactly when its key is non-empty and new. */
  lemma FirstsSnoc(s: seq<QnA>, x: QnA, key: KeyOf)
    ensures Firsts(s + [x], key) ==
            Firsts(s, key) + (if key(x) != [] && key(x) !in Keys(s, key) then [x] else [])
  {
    var t := s + [x];
    assert t[..|s|] == s;
    if key(x) in Keys(s, key) {
      var e :| e in s && key(e) != [] && key(e) == key(x);
      var j :| 0 <= j < |s| && s[j] == e;
      assert t[j] == e;
    }
    if key(x) != [] && !IsFirst(t, |s|, key) {
      var j :| 0 <= j < |s| && key(t[j]) == key(x);
      assert t[j] in s;
    }
  }

  /** The merge keeps every non-empty key of its input and no other. */
  lemma {:induction false} FirstsKeys(s: seq<QnA>, key: KeyOf)
    ensures Keys(Firsts(s, key), key) == Keys(s, key)
    decreases |s|
  {
    if s != [] {
      var s', x := s[..|s| - 1], s[|s| - 1];
      assert s == s' + [x];
      FirstsKeys(s', key);
      FirstsSnoc(s', x, key);
      KeysConcat(s', [x], key);
      KeysConcat(Firsts(s', key), [x], key);
      KeysSingle(x, key);
    }
  }

  /** The merged corpus holds each non-empty key once. */
  lemma {:induction false} FirstsKeyedUniquely(s: seq<QnA>, key: KeyOf)
    ensures KeyedUniquely(Firsts(s, key), key)
    decreases |s|
  {
    if s != [] {
      var s', x := s[..|s| - 1], s[|s| - 1];
      assert s == s' + [x];
      FirstsKeyedUniquely(s', key);
      FirstsSnoc(s', x, key);
      FirstsKeys(s', key);
      var f := Firsts(s', key);
      if key(x) != [] && key(x) !in Keys(s', key) {
        forall i | 0 <= i < |f| ensures key(f[i]) != key(x) {
          assert f[i] in f;
        }
        var g := f + [x];
        forall i, j | 0 <= i < j < |g| ensures key(g[i]) != key(g[j]) {
          if j < |f| { assert g[i] == f[i] && g[j] == f[j]; }
        }
      }
    }
  }

  /** The merged corpus keeps entries of the input, in input order. */
  lemma {:induction false} FirstsSubsequence(s: seq<QnA>, key: KeyOf)
    ensures IsSubsequence(Firsts(s, key), s)
    decreases |s|
  {
    if s != [] {
      var s', x := s[..|s| - 1], s[|s| - 1];
      assert s == s' + [x];
      FirstsSubsequence(s', key);
      FirstsSnoc(s', x, key);
      SubsequenceSnoc(Firsts(s', key), s', x);
      if key(x) != [] && key(x) !in Keys(s', key) {
        assert Firsts(s, key) == Firsts(s', key) + [x];
      } else {
        assert Firsts(s, key) == Firsts(s', key);
      }
    }
  }

  /** A corpus whose keys are already unique and non-empty passes the merge unchanged. */
  lemma {:induction false} FirstsOfKeyedUniquely(s: seq<QnA>, key: KeyOf)
    requires KeyedUniquely(s, key)
    ensures Firsts(s, key) == s
    decreases |s|
  {
    if s != [] {
      var s', x := s[..|s| - 1], s[|s| - 1];
      assert s == s' + [x];
      assert KeyedUniquely(s', key) by {
        forall i, j | 0 <= i < j < |s'| ensures key(s'[i]) != key(s'[j]) {
          assert s'[i] == s[i] && s'[j] == s[j];
        }
      }
      FirstsOfKeyedUniquely(s', key);
      FirstsSnoc(s', x, key);
    }
  }

  /** Appending entries whose keys are all known already (or empty) changes nothing. */
  lemma {:induction false} FirstsAbsorb(s: seq<QnA>, t: seq<QnA>, key: KeyOf)
    requires Keys(t, key) <= Keys(s, key)
    ensures Firsts(s + t, key) == Firsts(s, key)
    decreases |t|
  {
    if t == [] {
      assert s + t == s;
    } else {
      var t', x := t[..|t| - 1], t[|t| - 1];
      assert t == t' + [x];
      KeysConcat(t', [x], key);
      KeysSingle(x, key);
      FirstsAbsorb(s, t', key);
      assert s + t == (s + t') + [x];
      FirstsSnoc(s + t', x, key);
      KeysConcat(s, t', key);
    }
  }

  /** Merging `a` in front of an already merged `a + b` gives the merge of `a + b` again. */
  lemma {:induction false} FirstsRemerge(a: seq<QnA>, b: seq<QnA>, key: KeyOf)
    ensures Firsts(a + Firsts(a + b, key), key) == Firsts(a + b, key)
    decreases |b|
  {
    if b == [] {
      assert a + b == a;
      FirstsKeys(a, key);
      FirstsAbsorb(a, Firsts(a, key), key);
    } else {
      var b', x := b[..|b| - 1], b[|b| - 1];
      assert a + b == (a + b') + [x];
      FirstsRemerge(a, b', key);
      var f := Firsts(a + b', key);
      FirstsSnoc(a + b', x, key);
      if key(x) != [] && key(x) !in Keys(a + b', key) {
        assert Firsts(a + b, key) == f + [x];
        assert a + (f + [x]) == (a + f) + [x];
        FirstsSnoc(a + f, x, key);
        FirstsKeys(a + b', key);
        KeysConcat(a, f, key);
        KeysConcat(a, b', key);
      } else {
        assert Firsts(a + b, key) == f;
      }
    }
  }

  /** Running the merge on its own output changes nothing. */
  lemma FirstsIdempotent(s: seq<QnA>, key: KeyOf)
    ensures Firsts(Firsts(s, key), key) == Firsts(s, key)
  {
    FirstsRemerge([], s, key);
    assert [] + s == s;
    assert [] + Firsts(s, key) == Firsts(s, key);
  }

  /** Merging a merged corpus with itself yields the same corpus. */
  lemma FirstsSelfMerge(s: seq<QnA>, key: KeyOf)
    requires KeyedUniquely(s, key)
    ensures Firsts(s + s, key) == s
  {
    FirstsAbsorb(s, s, key);
    FirstsOfKeyedUniquely(s, key);
  }

  /** The upload step runs again on every rerun of the page while the same files stay
      selected; merging them a second time into the stored corpus changes nothing. */
  lemma UploadRerunStable(builtin: seq<QnA>, custom: seq<QnA>, uploaded: seq<QnA>, key: KeyOf)
    ensures var merged := Firsts(builtin + custom + uploaded, key);
            Firsts(builtin + merged + uploaded, key) == merged
  {
    var merged := Firsts(builtin + custom + uploaded, key);
    assert builtin + custom + uploaded == builtin + (custom + uploaded);
    FirstsRemerge(builtin, custom + uploaded, key);
    FirstsKeys(builtin + custom + uploaded, key);
    KeysConcat(builtin + custom, uploaded, key);
    KeysConcat(builtin, merged, key);
    FirstsAbsorb(builtin + merged, uploaded, key);
  }

  /** One step of the merge loop: the kept entries and the `seen` keys after one more item. */
  lemma DedupStep(prefix: seq<QnA>, item: QnA, key: KeyOf)
    ensures Firsts(prefix + [item], key) ==
            Firsts(prefix, key) + (if key(item) != [] && key(item) !in Keys(prefix, key) then [item] else [])
    ensures Keys(prefix + [item], key) ==
            Keys(prefix, key) + (if key(item) != [] then {key(item)} else {})
  {
    FirstsSnoc(prefix, item, key);
    KeysConcat(prefix, [item], key);
    KeysSingle(item, key);
  }

  /** test.py lines 394-398: one pass over the merged list with a `seen` set of keys; the
      upload step runs it with `key` = `Key`. */
  method Dedup(merged: seq<QnA>, key: KeyOf) returns (dedup: seq<QnA>)
    ensures dedup == Firsts(merged, key)
  {
    var seen: set<String> := {};
    dedup := [];
    for i := 0 to |merged|
      invariant dedup == Firsts(merged[..i], key)
      invariant seen == Keys(merged[..i], key)
    {
      var item := merged[i];
      var k := key(item);
      assert merged[..i + 1] == merged[..i] + [item];
      DedupStep(merged[..i], item, key);
      if k != [] && k !in seen {
        seen := seen + {k};
        dedup := dedup + [item];
      }
    }
    assert merged[..|merged|] == merged;
  }
}
