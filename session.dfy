/**
 * The session state of the chat page: the user profile and the stored uploaded Q&A entries
 * (`st.session_state.profile` and `st.session_state.custom_qna` in test.py), the upload step
 * that merges new files into the stored entries (lines 384-399), and the router answering one
 * prompt from that state (lines 446-506).
 */
module Chat {
  import opened Text
  import opened Corpus
  import opened Retrieval
  import opened Medicines
  import opened Safety
  import opened Plans
  import opened Router

  /** The entries of several files, one file after another: `qna_all += load_qna_file(f)`. */
  function Concat(files: seq<seq<QnA>>): seq<QnA>
    decreases |files|
  {
    if files == [] then [] else Concat(files[..|files| - 1]) + files[|files| - 1]
  }

  lemma ConcatSnoc(files: seq<seq<QnA>>, f: seq<QnA>)
    ensures Concat(files + [f]) == Concat(files) + f
  {
    assert (files + [f])[..|files|] == files;
  }

  /** The loop collecting the entries of all selected files. */
  method ReadAll(files: seq<seq<QnA>>) returns (all: seq<QnA>)
    ensures all == Concat(files)
  {
    all := [];
    for i := 0 to |files|
      invariant all == Concat(files[..i])
    {
      ConcatSnoc(files[..i], files[i]);
      assert files[..i + 1] == files[..i] + [files[i]];
      all := all + files[i];
    }
    assert files[..|files|] == files;
  }

  /** The state the router reads: `st.session_state.profile` and
      `st.session_state.custom_qna`. */
  class Session {
    var profile: Profile
    var customQna: seq<QnA>

    /** A fresh session: the default profile and no uploaded entries. */
    constructor ()
      ensures profile == DefaultProfile && customQna == []
    {
      profile := DefaultProfile;
      customQna := [];
    }

    /** test.py lines 384-399: the entries read from the uploaded files, in file order, are
        merged after the built-in entries and the stored ones, and the merge keeps the first
        entry of each non-empty `_norm` key. Nothing happens when no file is selected. */
    method Upload(files: seq<seq<QnA>>)
      modifies this
      ensures profile == old(profile)
      ensures files == [] ==> customQna == old(customQna)
      ensures files != [] ==> customQna == Firsts(DefaultQna() + old(customQna) + Concat(files), Key)
      ensures files != [] ==> KeyedUniquely(customQna, Key)
    {
      if files != [] {
        var all := ReadAll(files);
        var merged := DefaultQna() + customQna + all;
        customQna := Dedup(merged, Key);
        FirstsKeyedUniquely(merged, Key);
      }
    }

    /** The router for one prompt, over the session's active corpus and profile. */
    method Respond(prompt: String, ratio: (String, String) -> real, greets: String -> bool,
                   matches: (String, String) -> bool) returns (r: Response)
      ensures r == Reply(profile, ActiveCorpus(customQna), prompt, ratio, greets, matches)
    {
      var base := if customQna != [] then customQna else DefaultQna();
      var ans := BestQnaAnswer(base, TopK, MinScore, SimTo(prompt, ratio));
      if ans.Some? {
        return FromQna(ans.value);
      }
      var t := Normalize(prompt);
      if greets(t) {
        return Greeting;
      }
      var cond := DetectCondition(t, matches);
      if cond.Some? {
        var plan := ConditionPlan(cond.value);
        var flags := CollectPlanFlags(profile, Kb(), RegimenText(plan));
        var contra, caution := RenderFlags(flags);
        return ConditionAdvice(plan, contra, caution);
      }
      var drug := FindDrug(Kb(), t);
      if drug.Some? {
        var flags := CheckProfile(profile, drug.value);
        var contra, caution := RenderFlags(flags);
        return DrugAdvice(drug.value, contra, caution);
      }
      return NotTrained;
    }
  }
}
