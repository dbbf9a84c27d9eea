# A verified model of the chatbot engine of `test.py`

`test.py` is a Streamlit page for a small offline health chatbot. Under the page code sits a
deterministic engine, and this project models that engine in Dafny:

- the text normalisers `normalize` and `_norm` (module `Text`);
- the similarity score `_sim`: the Jaccard index of the word sets plus an abstract sequence
  ratio (module `Similarity`);
- the retrieval ranker `best_qna_answer`, with its in-place stable sort modelled as an
  insertion sort on an array (module `Retrieval`);
- the built-in Q&A corpus and the merge loop run on upload, which keeps the first entry of each
  non-empty `_norm` key (module `Corpus`);
- the format-independent part of `load_qna_file`: CSV column choice and TXT line splitting
  (module `Ingest`);
- the medicine knowledge base `KB` and `find_drug` (module `Medicines`);
- the safety checker `check_profile_vs_drug` and `render_flags` (module `Safety`);
- `condition_plan` and the first-match condition detection (module `Plans`);
- the five-branch router that answers one prompt (module `Router`);
- the session state it reads and the upload step that writes it (module `Chat`).

Functions state what the engine computes. The loops of the source are methods proved equal
to those functions:

- the merge loop;
- the two `find_drug` passes;
- the flag loops;
- the sort;
- the row and line loops;
- the header loop;
- the badge loop.

Lemmas then prove what the source promises about each function. The regular expressions
(greeting, `CONDITION_PATTERNS`) and difflib's `SequenceMatcher.ratio` are function
parameters: `greets`, `matches` and `ratio`.

## Model

| member | source | states |
|---|---|---|
| Text.ToLower | test.py:173 | `lower` maps an ASCII capital to its small letter (code + 32) and keeps every other character; it never yields a capital and keeps whether a character is whitespace |
| Text.Lower | test.py:173 | the lower-cased text has the same length and is lower-cased character by character |
| Text.TrimStart | test.py:173 | the result is a suffix of the input starting with non-whitespace, and everything dropped is whitespace |
| Text.TrimEnd | test.py:173 | the result is a prefix of the input ending with non-whitespace, and everything dropped is whitespace |
| Text.Strip | test.py:173 | `strip()` leaves no whitespace at either end and is empty exactly when the input is all whitespace |
| Text.StripSlice | test.py:173 | `strip()` returns a contiguous slice of the input with only whitespace before and after it |
| Text.Collapse | test.py:173 | the whitespace-run substitution is empty only for the empty text and keeps whether the first and last characters are whitespace |
| Text.CollapseShape | test.py:173 | after the substitution every whitespace character is a blank and no two whitespace characters are adjacent |
| Text.CollapseKeepsLower | test.py:173 | the substitution introduces no capital |
| Text.Normalize | test.py:172-173 | `normalize`: strip, lower-case, then replace every whitespace run by one blank (its properties are the lemmas below) |
| Text.CollapseWords | test.py:173 | the whitespace-run substitution keeps the words: `split()` of the result equals `split()` of the input |
| Text.NormalizeWords | test.py:172-173 | `normalize(t).split()` equals `t.lower().split()`: normalising never joins, splits or drops a word |
| Text.NormalizeShape | test.py:172-173 | `normalize` yields lower-case text without leading or trailing whitespace whose whitespace runs are single blanks; it is empty exactly when the input is all whitespace |
| Text.NormalizeFixes | test.py:172-173 | a text already of that shape is left unchanged by `normalize` |
| Text.NormalizeIdempotent | test.py:172-173 | `normalize(normalize(t)) == normalize(t)` |
| Text.KeepOrBlank | test.py:176 | a character is lower-cased, then kept when it is `a-z`, `0-9` or whitespace and replaced by a blank otherwise; the result is whitespace exactly when the lowered character is neither a letter nor a digit |
| Text.NormCompare | test.py:175-176 | `_norm`: lower-case, blank out every character outside `a-z0-9` and whitespace, then strip |
| Text.NormCompareShape | test.py:175-176 | `_norm` yields only `a-z`, `0-9` and whitespace, with no whitespace at either end |
| Text.NormCompareSlice | test.py:175-176 | `_norm(s)` is a contiguous slice of the blanked text with only whitespace cut from either end |
| Text.NormCompareEmptyIff | test.py:175-176 | `_norm(s)` is empty exactly when no character of `s` lowers to an ASCII letter or digit |
| Text.WordLength | test.py:179 | the first word of `split()` runs up to the first whitespace character or the end |
| Text.WordsAreWords | test.py:179 | every element of `split()` is non-empty and free of whitespace |
| Text.WordsEmptyIff | test.py:179 | `split()` is empty exactly when the text is all whitespace |
| Text.IndexFromFacts | test.py:240-241 | the search finds the first occurrence at or after the start position, or reports that there is none |
| Text.ContainsIff | test.py:269-270 | `p in t` holds exactly when `p` occurs somewhere in `t`, and the search returns its first occurrence |
| Text.TitleAt | test.py:301 | at each position `title()` keeps a non-letter, keeps a letter's lower-case form, gives a capital at the start of a run of letters and a small letter after a letter |
| Text.TitleFacts | test.py:301 | `title()` keeps length and non-letters, keeps every letter up to case, capitalises the first letter of each run of letters and lower-cases the others |
| Similarity.Jaccard | test.py:180 | the Jaccard term lies in [0, 1], is 0 when both word sets are empty, and is 1 exactly when the sets are equal and non-empty |
| Similarity.JaccardSymmetric | test.py:180 | the Jaccard term does not depend on argument order |
| Similarity.TokensNonEmpty | test.py:179 | a `_norm` form with a non-whitespace first character has at least one word |
| Similarity.Sim | test.py:178-182 | `_sim`: 0.6 times the Jaccard index of the word sets of the two `_norm` forms plus 0.4 times their sequence ratio |
| Similarity.SimBounds | test.py:178-182 | `_sim` lies in [0, 1] whenever the sequence ratio does |
| Similarity.SimSelf | test.py:178-182 | `_sim(a, a) = 0.6 + 0.4·ratio(x, x)` for a non-empty `_norm` form `x`, which is 1 when the ratio is 1 on equal inputs |
| Similarity.SimWithoutWords | test.py:178-182 | when neither `_norm` form has a word, `_sim` is just `0.4·ratio` |
| Corpus.Key | test.py:396 | the merge key of an entry is `_norm` of its question |
| Corpus.Firsts | test.py:392-399 | the merge result: each entry whose key is non-empty and not the key of an earlier entry, in order |
| Corpus.FirstsSnoc | test.py:394-398 | one more item is kept exactly when its key is non-empty and not yet seen |
| Corpus.Dedup | test.py:392-399 | the merge loop returns the entries that are the first with their non-empty `_norm` key, in merged order |
| Corpus.FirstsKeys | test.py:394-398 | the merge keeps every non-empty key of its input and no other |
| Corpus.FirstsKeyedUniquely | test.py:394-398 | the merged entries have pairwise distinct, non-empty keys |
| Corpus.FirstsSubsequence | test.py:392-399 | the merged entries are a subsequence of `DEFAULT_QNA + custom_qna + qna_all` |
| Corpus.FirstsOfKeyedUniquely | test.py:394-398 | a list whose keys are already distinct and non-empty passes the merge unchanged |
| Corpus.FirstsIdempotent | test.py:394-398 | merging the merged list again changes nothing |
| Corpus.FirstsAbsorb | test.py:392-399 | appending items whose keys are already present changes nothing |
| Corpus.FirstsRemerge | test.py:392-399 | merging a prefix in front of an earlier merge of the same prefix gives that merge back |
| Corpus.FirstsSelfMerge | test.py:392-399 | a deduplicated list merged with itself is itself |
| Corpus.UploadRerunStable | test.py:392-399 | re-running the upload step with the same files leaves `custom_qna` as it was |
| Ingest.GatherMembers | test.py:221-224 | an entry is collected exactly when some row or line yields it |
| Ingest.GatherEntries | test.py:221-224 | every collected entry has the shape each row or line yields |
| Ingest.Collect | test.py:221-224 | the append loop collects the entries of the rows in order |
| Ingest.ChooseColumns | test.py:212-220 | the column choice: the last question and last answer column of the header row (its names already trimmed and lower-cased), with row 0 skipped, when the header names both kinds, else columns 0 and 1 with every row kept |
| Ingest.RowEntry | test.py:221-224 | a row long enough for both columns gives its trimmed question and answer when both are non-empty, and nothing otherwise |
| Ingest.LastInFacts | test.py:215-218 | after the header loop the index is the last header matching the names, or unset exactly when none matches |
| Ingest.ColumnsChoice | test.py:212-220 | with a known question name and a known answer name in the header, the last matching column of each kind is used and row 0 is skipped; otherwise columns 0 and 1 with no row skipped |
| Ingest.PickColumns | test.py:212-220 | the header loop computes that column choice |
| Ingest.RowReaderEntries | test.py:221-224 | an extracted row gives a trimmed non-empty question and answer tagged with the file name |
| Ingest.CsvMembers | test.py:211-224 | an entry comes from a CSV file exactly when some body row long enough for both columns yields it, and every entry is trimmed and non-empty |
| Ingest.LoadCsv | test.py:211-224 | the row loop computes the CSV entries |
| Ingest.HeaderOfNames | test.py:212 | a header of trimmed lower-case names reads as itself |
| Ingest.ColumnsOfCsvRows | test.py:212-220 | the header `question,answer` selects columns 0 and 1 and skips row 0 |
| Ingest.RowOfEntry | test.py:221-224 | the row `[q, a]` of a trimmed non-empty entry yields that entry |
| Ingest.GatherRows | test.py:221-224 | the data rows written for a list of entries yield that list |
| Ingest.CsvRoundTrip | test.py:211-224 | writing entries as a `question,answer` CSV and reading it back gives the same entries |
| Ingest.SplitFirstFacts | test.py:240-243 | `split(sep, 1)` cuts at the first separator: the parts rebuild the line and the first part holds no separator |
| Ingest.PairEntryShape | test.py:246-247 | a stored pair has a trimmed non-empty question and answer and the file name |
| Ingest.LineEntry | test.py:237-247 | a stripped non-empty line is cut at its first `:::`, or else at its first `,`, and gives the trimmed parts when both are non-empty |
| Ingest.LineEntryFacts | test.py:237-247 | a line with neither `:::` nor `,` is skipped, and every kept line gives a trimmed non-empty pair |
| Ingest.TxtMembers | test.py:237-247 | an entry comes from a TXT file exactly when some line yields it, and every entry is trimmed and non-empty |
| Ingest.LoadTxt | test.py:237-247 | the line loop computes the TXT entries |
| Ingest.SplitTxtLine | test.py:240-241 | a line `q ::: a` whose question holds no `:::` is cut right after `q` |
| Ingest.TxtRoundTrip | test.py:237-247 | writing an entry as the line `q ::: a` and reading it back gives the entry |
| Medicines.Lookup | test.py:267-276 | `find_drug` over a record list: the first record with an alias in the text, else the first whose key is in the text, else none |
| Medicines.DrugFor | test.py:267-276 | `find_drug(user_text)`: that lookup over `KB` on the normalised text |
| Medicines.FirstByAliasFacts | test.py:269-272 | the alias pass returns the earliest record with an alias in the text, and nothing exactly when no record has one |
| Medicines.FirstByKeyNone | test.py:273-275 | the key pass returns nothing exactly when no key occurs in the text |
| Medicines.LookupNone | test.py:267-276 | `find_drug` returns ("", {}) exactly when no alias and no key of any record occurs in the normalised text |
| Medicines.KeyPassRedundant | test.py:267-276 | when every key is among its own aliases, the key pass never changes the result |
| Medicines.KbKeysAreAliases | test.py:66-107 | every record of `KB` lists its key among its aliases |
| Medicines.DrugForIsFirstAlias | test.py:267-276 | for `KB`, `find_drug` is the earliest record with an alias in the normalised text, and ("", {}) when there is none |
| Medicines.DrugForNormalized | test.py:268 | passing an already normalised text (as the router does) finds the same record |
| Medicines.FindDrug | test.py:267-276 | the nested loops with early return compute that lookup |
| Safety.Hits | test.py:281-287 | the codes of a record's list that are in a pool, in record order |
| Safety.Flags | test.py:279-288 | `check_profile_vs_drug`: a contraindication flag per contraindication hit in conditions and allergies, then a caution flag per caution hit in conditions, allergies and meds |
| Safety.HitsMembers | test.py:281-287 | a code is kept exactly when it is in the record's list and in the profile pool |
| Safety.HitsSubsequence | test.py:281-287 | the kept codes keep the record's order |
| Safety.HitsMonotone | test.py:281-287 | a larger pool keeps a supersequence of the codes |
| Safety.FlagIff | test.py:279-288 | a contraindication for c is raised exactly when c is a contraindication of the record and in conditions or allergies; a caution exactly when c is a caution and in conditions, allergies or meds |
| Safety.MedsNeverContraindicate | test.py:281-283 | changing `meds` never changes the contraindications |
| Safety.FlagsContrasFirst | test.py:279-288 | every contraindication flag comes before every caution flag |
| Safety.FlagsMonotone | test.py:279-288 | adding conditions, allergies or meds never removes a flag: the old flag list is a subsequence of the new one |
| Safety.CheckProfile | test.py:279-288 | the two append loops compute the flag list |
| Safety.DetailsConcat | test.py:291-296 | splitting a concatenation splits each part |
| Safety.DetailsOfTag | test.py:291-296 | flags all of one kind give back their codes in that list and nothing in the other |
| Safety.DetailsMembers | test.py:291-296 | a code is in a list of `render_flags` exactly when a flag of that kind carries it |
| Safety.RenderOfFlags | test.py:279-296 | the two lists of `render_flags` for a record's flags are the hit contraindications and the hit cautions, in record order |
| Safety.RenderRoundTrip | test.py:291-296 | a contraindications-first flag list is rebuilt exactly from its two lists |
| Safety.RenderFlags | test.py:291-296 | the split loop computes the two lists |
| Plans.ConditionPlan | test.py:300-324 | `condition_plan`: the regimen, red flags and self-care advice of each of the six labels, and the fallback note for any other label |
| Plans.LabelPlan | test.py:300-321 | each detectable condition gets a regimen and no note |
| Plans.UnknownPlan | test.py:322-323 | any other label gets no regimen and the note "No plan available." |
| Plans.PlanCoverage | test.py:300-324 | a regimen is given exactly for the six condition labels |
| Plans.PlanRedFlags | test.py:302-306 | only headache carries red flags |
| Plans.PlanTitleAt | test.py:301 | at each position the title keeps the label's length, turns `_` into a blank, keeps a letter up to case and capitalises a letter that starts a word |
| Plans.PlanTitleShape | test.py:301 | the title keeps the label's length, turns `_` into blanks, keeps every letter of the label up to case and capitalises each word |
| Plans.FirstMatchFacts | test.py:464-467 | detection yields the earliest label whose patterns match, and nothing exactly when none matches |
| Plans.DetectCondition | test.py:464-467 | the loop with `break` computes that detection |
| Retrieval.RankingPermutes | test.py:256 | the sort is a permutation of `scored` |
| Retrieval.RankingOrdered | test.py:256 | the sort is by descending score, with corpus order kept among equal scores |
| Retrieval.SortRanked | test.py:256 | the in-place sort of the array computes that ordering |
| Retrieval.Take | test.py:257 | `scored[:k]` is a prefix of length k (Python's slice rule for k beyond the end or negative) |
| Retrieval.PassingMembers | test.py:257 | the threshold filter keeps exactly the elements scoring at least `min_score` |
| Retrieval.PassingOrdered | test.py:257 | the filter keeps the order |
| Retrieval.ShortlistFacts | test.py:255-257 | the shortlist is sorted, has at most k elements, all from the corpus with score ≥ `min_score`, and leaves out no entry ranked ahead of one it keeps |
| Retrieval.Round3 | test.py:257 | `round(s, 3)` is a multiple of 0.001 within half a thousandth of `s`, and a tie goes to the even thousandth |
| Retrieval.Round3Monotone | test.py:257 | rounding keeps the order of scores |
| Retrieval.Rank | test.py:254-263 | the ranker on scored entries: sort by descending score, keep the top k, drop those under `min_score`, then decide |
| Retrieval.Decide | test.py:259-263 | the decision on the survivors: "single" with the best entry when there is one survivor or the rounded lead is at least 0.1, otherwise "multi" with all survivors |
| Retrieval.BestAnswer | test.py:253-263 | `best_qna_answer(query, base, k, min_score)`: the ranker with `_sim(query, q)` as the score of each entry |
| Retrieval.RankNone | test.py:254-258 | the ranker returns None exactly when no entry among the top k reaches `min_score`, which covers the empty corpus |
| Retrieval.ShortlistHeadIsBest | test.py:255-259 | the top survivor is a corpus entry with the highest score, the first such in corpus order |
| Retrieval.RankSingle | test.py:259-261 | "single" is returned exactly when one candidate survives or the rounded lead is ≥ 0.1, and it answers with the best-scoring entry |
| Retrieval.RankMulti | test.py:262-263 | "multi" holds between 2 and k candidates from the corpus, each with unrounded score ≥ `min_score`, in non-increasing score order, with a rounded lead under 0.1 |
| Retrieval.BestQnaAnswer | test.py:253-263 | the method (scoring, in-place sort, slicing, filtering, decision) computes the ranker's answer |
| Router.ActiveCorpus | test.py:447 | the router searches the uploaded entries when there are any, and exactly the built-in ones otherwise; never an empty corpus |
| Router.Route | test.py:446-506 | the router on the ranker's answer and the normalised prompt: Q&A, greeting, condition, medicine, fallback, first applicable wins |
| Router.Reply | test.py:446-506 | the answer to one prompt: rank it against the active corpus with k = 3 and threshold 0.5, then route on the normalised prompt |
| Router.RouteHead | test.py:448-462 | a Q&A answer wins exactly when the ranker finds one, and a greeting otherwise exactly when the greeting pattern matches |
| Router.RouteBranches | test.py:446-506 | the branches apply in the order Q&A, greeting, condition, medicine, fallback, each exactly when all earlier ones fail |
| Router.RouteCondition | test.py:464-486 | condition advice is given exactly when no earlier branch applies and some condition matches; it is the plan of the earliest matching label, with a regimen |
| Router.RouteDrug | test.py:487-506 | medicine advice is given exactly when no earlier branch applies, no condition matches and some KB alias occurs; it is for the earliest such record; otherwise the fallback |
| Router.ReplyRoutes | test.py:446-506 | for one prompt, with the uploaded entries if there are any and the built-in ones otherwise: a Q&A answer exactly when the ranker (k = 3, threshold 0.5) finds one; otherwise a greeting exactly when the normalised prompt greets; otherwise condition advice exactly when some condition label matches it; otherwise medicine advice exactly when some KB alias occurs in it; otherwise the fallback |
| Router.PlanFlagsMembers | test.py:471-475 | a flag is gathered for a plan exactly when some KB record mentioned in the regimen raises it |
| Router.ConditionAdviceFlags | test.py:469-476 | condition advice lists code c as a contraindication (caution) exactly when the profile holds c and some medicine named in the regimen has c as a contraindication (caution) |
| Router.DrugAdviceFlags | test.py:489-492 | medicine advice lists the record's contraindications and cautions that the profile hits, in record order |
| Router.ConditionReplyNoFlags | test.py:469-476 | a profile with no conditions, allergies or meds sees no flag in condition advice |
| Router.DrugReplyNoFlags | test.py:489-492 | such a profile sees no flag in medicine advice |
| Router.NoCodesNoFlags | test.py:464-500 | such a profile (the default one) never sees a flag, whatever the branch |
| Router.MentionsDrug | test.py:474 | the alias test of the badge loop holds exactly when some alias occurs in the text |
| Router.CollectPlanFlags | test.py:471-475 | the badge loop computes the gathered flags |
| Chat.ReadAll | test.py:388-390 | the file loop concatenates the entries of the files in order |
| Chat.Session.constructor | test.py:329-332 | a fresh session has the default profile and no uploaded entries |
| Chat.Session.Upload | test.py:387-399 | uploading merges built-in, stored and new entries, keeping the first of each non-empty key, so the stored keys are distinct; nothing changes when no file is selected, and the profile never changes |
| Chat.Session.Respond | test.py:446-506 | the imperative router answers as the routing function does on the session's profile and active corpus |

## Left out

- The Streamlit page is left out: page setup, styles, sidebar widgets, balloons, chat rendering and the greeting shown on the first visit. The profile is a value the session holds, not the result of the form.
- The chat history is left out: `Chat.Session.Respond` returns the reply and does not append the prompt and the reply to a history.
- Markdown and HTML formatting of replies and badges is left out; so is `sorted(set(...))` over the flag codes. The model keeps the two lists of `render_flags`, and the router lemmas state membership in them, which is all the sorted set shows.
- Byte decoding over several encodings is left out. Latin-1 decodes any byte string, so the `text is None` branch cannot be reached with bytes.
- `csv.Sniffer` and the CSV reader are left out: the model starts from the rows the reader returns.
- `str.splitlines` is left out: the model starts from the list of lines.
- The JSON branch (`json.loads`) is left out. It is also the one place where the code's name lists differ from the CSV ones: JSON accepts `question`/`q`/`query` and `answer`/`a`/`response` only, not `prompt`, `ans` or `reply`.
- The choice of branch by file extension is left out: the CSV and TXT extractors are separate functions.
- Floating point is left out. Scores are exact reals, and `round(s, 3)` rounds half to even on exact reals, so results that depend on binary representation are not modelled. One example is a rounded lead of 0.6 - 0.5, which is just under 0.1 in floating point.
- `difflib.SequenceMatcher.ratio` is the parameter `ratio`. Lemmas that need its range or its value on equal inputs say so.
- The greeting regular expression and `CONDITION_PATTERNS` are the predicates `greets` and `matches(label, text)`. Only the label order of the patterns and first-match-wins are modelled, not the patterns themselves.
- `str.lower()` and `str.title()` are modelled on ASCII letters only; Unicode case mapping is left out. Whitespace is Python's `str.isspace` set.
- `list.sort` (Timsort) is modelled as a stable insertion sort on an array. The order it yields is the same; the algorithm differs.
- Safety.CheckProfile: takes the drug record itself rather than its key and `KB[key]`. An unknown key, which raises `KeyError` in the source, cannot be passed.
- `SUPPORTED` is `list(KB.keys())`, so the badge loop runs over the records of `Kb()` in `KB` order.
- The descriptive KB fields ("class", "adult_dose", "notes") and the advice texts are kept verbatim; no property is stated about their wording.
