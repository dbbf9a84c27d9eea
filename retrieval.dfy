/**
 * The retrieval ranker `best_qna_answer` of test.py (lines 253-263): score every corpus entry,
 * sort by descending score keeping corpus order among ties, keep the first k, drop those under
 * the threshold, and answer with one entry when it leads clearly, else with the shortlist.
 *
 * The ranker only looks at scores through `score(item["q"])`, so it is stated for any scorer;
 * `BestAnswer` plugs in `_sim(query, ·)`.
 */
module Retrieval {
  import opened Wrappers
  import opened Text
  import opened Similarity
  import opened Corpus

  /** An element of `scored`: the unrounded score, the entry's index in the corpus, the entry. */
  datatype Ranked = Ranked(score: real, pos: nat, entry: QnA)

  /** One candidate of a "multi" answer, with its rounded score. */
  datatype Candidate = Candidate(q: String, a: String, score: real, src: String)

  /** The two answer shapes: `{"mode": "single", ...}` and `{"mode": "multi", ...}`. */
  datatype Answer =
    | Single(answer: String, score: real, q: String, src: String)
    | Multi(candidates: seq<Candidate>)

  type Scorer = String -> real

  /** The scorer of `best_qna_answer`: `_sim(query, q)`. */
  function SimTo(query: String, ratio: (String, String) -> real): Scorer {
    q => Sim(query, q, ratio)
  }

  /** `[(score(item["q"]), item) for item in base]`, each element tagged with its index. */
  function Scored(base: seq<QnA>, score: Scorer): (s: seq<Ranked>)
    ensures |s| == |base|
  {
    seq(|base|, i requires 0 <= i < |base| => Ranked(score(base[i].q), i, base[i]))
  }

  /** Corpus indices strictly increase along `s`. */
  predicate Increasing(s: seq<Ranked>) {
    forall i, j :: 0 <= i < j < |s| ==> s[i].pos < s[j].pos
  }

  /** Where a stable descending sort puts `x` ahead of `y`. */
  predicate Before(x: Ranked, y: Ranked) {
    x.score > y.score || (x.score == y.score && x.pos < y.pos)
  }

  /** Descending by score, and in corpus order among equal scores. */
  predicate Ordered(r: seq<Ranked>) {
    forall i, j :: 0 <= i < j < |r| ==> Before(r[i], r[j])
  }

  /** Stable insertion: `x` goes behind every element scoring at least as much. */
  function Insert(r: seq<Ranked>, x: Ranked): seq<Ranked>
    decreases |r|
  {
    if r != [] && r[|r| - 1].score < x.score then Insert(r[..|r| - 1], x) + [r[|r| - 1]]
    else r + [x]
  }

  /** `sorted(s, key=lambda x: x[0], reverse=True)`, as repeated stable insertion. */
  function Ranking(s: seq<Ranked>): seq<Ranked>
    decreases |s|
  {
    if s == [] then [] else Insert(Ranking(s[..|s| - 1]), s[|s| - 1])
  }

  lemma {:induction false} InsertPermutes(r: seq<Ranked>, x: Ranked)
    ensures multiset(Insert(r, x)) == multiset(r) + multiset{x}
    decreases |r|
  {
    if r != [] && r[|r| - 1].score < x.score {
      var r', y := r[..|r| - 1], r[|r| - 1];
      assert r == r' + [y];
      InsertPermutes(r', x);
    }
  }

  lemma {:induction false} InsertOrdered(r: seq<Ranked>, x: Ranked)
    requires Ordered(r)
    requires forall e :: e in r ==> e.pos < x.pos
    ensures Ordered(Insert(r, x))
    decreases |r|
  {
    if r != [] && r[|r| - 1].score < x.score {
      var r', y := r[..|r| - 1], r[|r| - 1];
      assert r == r' + [y];
      InsertOrdered(r', x);
      InsertPermutes(r', x);
      var t := Insert(r', x);
      forall i | 0 <= i < |t| ensures Before(t[i], y) {
        assert t[i] in multiset(r') + multiset{x};
        if t[i] != x {
          var p :| 0 <= p < |r'| && r'[p] == t[i];
          assert r[p] == t[i];
        }
      }
      var u := t + [y];
      forall i, j | 0 <= i < j < |u| ensures Before(u[i], u[j]) {
        if j < |t| { assert u[i] == t[i] && u[j] == t[j]; }
      }
    } else {
      var u := r + [x];
      forall i, j | 0 <= i < j < |u| ensures Before(u[i], u[j]) {
        if j == |r| {
          assert r[i] in r;
          if i < |r| - 1 { assert Before(r[i], r[|r| - 1]); }
        } else {
          assert u[i] == r[i] && u[j] == r[j];
        }
      }
    }
  }

  /** The sort is a permutation. */
  lemma {:induction false} RankingPermutes(s: seq<Ranked>)
    ensures multiset(Ranking(s)) == multiset(s)
    decreases |s|
  {
    if s != [] {
      var s', x := s[..|s| - 1], s[|s| - 1];
      assert s == s' + [x];
      RankingPermutes(s');
      InsertPermutes(Ranking(s'), x);
    }
  }

  /** The sort orders by descending score and, among equal scores, keeps the input order. */
  lemma {:induction false} RankingOrdered(s: seq<Ranked>)
    requires Increasing(s)
    ensures Ordered(Ranking(s))
    decreases |s|
  {
    if s != [] {
      var s', x := s[..|s| - 1], s[|s| - 1];
      assert s == s' + [x];
      RankingOrdered(s');
      RankingPermutes(s');
      forall e | e in Ranking(s') ensures e.pos < x.pos {
        assert e in multiset(s');
        var p :| 0 <= p < |s'| && s'[p] == e;
        assert s[p] == e;
      }
      InsertOrdered(Ranking(s'), x);
    }
  }

  /** One shift of the insertion loop: `x` moves ahead of `r[j - 1]`. */
  lemma InsertShift(r: seq<Ranked>, x: Ranked, j: nat)
    requires 0 < j <= |r| && r[j - 1].score < x.score
    ensures Insert(r[..j], x) + r[j..] == Insert(r[..j - 1], x) + r[j - 1..]
  {
    assert r[..j][..j - 1] == r[..j - 1];
    assert r[j - 1..] == [r[j - 1]] + r[j..];
  }

  /** Where the insertion loop stops, `x` goes in. */
  lemma InsertStop(r: seq<Ranked>, x: Ranked, j: nat)
    requires j <= |r| && (j == 0 || r[j - 1].score >= x.score)
    ensures Insert(r[..j], x) + r[j..] == r[..j] + [x] + r[j..]
  {
  }

  /** The array contents while `x` travels left: a hole at `j`, `r` around it. */
  lemma ShiftContents<T>(b: seq<T>, r: seq<T>, t: seq<T>, j: nat, w: T)
    requires 0 < j <= |r| && b == r[..j] + [w] + r[j..] + t
    ensures b[j := b[j - 1]] == r[..j - 1] + [b[j - 1]] + r[j - 1..] + t
  {
    var c := r[..j - 1] + [b[j - 1]] + r[j - 1..] + t;
    forall p | 0 <= p < |c| ensures b[j := b[j - 1]][p] == c[p] {
      if p < j - 1 {
        assert b[p] == r[p] && c[p] == r[p];
      } else if p == j - 1 || p == j {
        assert b[j - 1] == r[j - 1];
      } else if p < |r| + 1 {
        assert b[p] == r[p - 1] && c[p] == r[p - 1];
      } else {
        assert b[p] == t[p - |r| - 1] && c[p] == t[p - |r| - 1];
      }
    }
  }

  lemma FillHole<T>(b: seq<T>, r: seq<T>, t: seq<T>, j: nat, w: T, x: T)
    requires j <= |r| && b == r[..j] + [w] + r[j..] + t
    ensures b[j := x] == r[..j] + [x] + r[j..] + t
  {
    var c := r[..j] + [x] + r[j..] + t;
    forall p | 0 <= p < |c| ensures b[j := x][p] == c[p] {
      if p < j {
        assert b[p] == r[p] && c[p] == r[p];
      } else if j < p <= |r| {
        assert b[p] == r[p - 1] && c[p] == r[p - 1];
      } else if p > |r| {
        assert b[p] == t[p - |r| - 1] && c[p] == t[p - |r| - 1];
      }
    }
  }

  lemma RankingSnoc(s: seq<Ranked>, i: nat)
    requires i < |s|
    ensures Ranking(s[..i + 1]) == Insert(Ranking(s[..i]), s[i])
  {
    assert s[..i + 1][..i] == s[..i];
  }

  /** One pass of the insertion sort: `a[i]` moves left past every element of the sorted
      prefix `r` that scores less. */
  method InsertAt(a: array<Ranked>, i: nat, ghost r: seq<Ranked>, ghost t: seq<Ranked>)
    requires i < a.Length && |r| == i && a[..] == r + [a[i]] + t
    modifies a
    ensures a[..] == Insert(r, old(a[i])) + t
  {
    var x := a[i];
    assert r[..i] == r && r[i..] == [];
    var j := i;
    while j > 0 && a[j - 1].score < x.score
      invariant 0 <= j <= i
      invariant a[..] == r[..j] + [a[j]] + r[j..] + t
      invariant Insert(r, x) == Insert(r[..j], x) + r[j..]
    {
      InsertShift(r, x, j);
      ghost var b := a[..];
      ShiftContents(b, r, t, j, a[j]);
      a[j] := a[j - 1];
      assert a[..] == b[j := b[j - 1]];
      j := j - 1;
    }
    InsertStop(r, x, j);
    ghost var b := a[..];
    FillHole(b, r, t, j, a[j], x);
    a[j] := x;
    assert a[..] == b[j := x];
  }

  lemma SplitAt<T>(b: seq<T>, r: seq<T>, s: seq<T>, i: nat)
    requires i < |s| && |b| == |s| && b == r + s[i..]
    ensures |r| == i && b[i] == s[i] && b == r + [b[i]] + s[i + 1..]
  {
    assert s[i..] == [s[i]] + s[i + 1..];
  }

  /** `scored.sort(key=lambda x: x[0], reverse=True)`: an in-place stable insertion sort. */
  method SortRanked(a: array<Ranked>)
    modifies a
    ensures a[..] == Ranking(old(a[..]))
  {
    ghost var s := a[..];
    for i := 0 to a.Length
      invariant a[..] == Ranking(s[..i]) + s[i..]
    {
      ghost var r := Ranking(s[..i]);
      SplitAt(a[..], r, s, i);
      RankingSnoc(s, i);
      InsertAt(a, i, r, s[i + 1..]);
    }
    assert s[..a.Length] == s;
  }

  /** Python's slice `s[:k]`; a negative `k` counts from the end. */
  function Take<T>(s: seq<T>, k: int): (t: seq<T>)
    ensures |t| <= |s| && t == s[..|t|]
    ensures 0 <= k ==> |t| == if k < |s| then k else |s|
    ensures k < 0 ==> |t| == if |s| + k < 0 then 0 else |s| + k
  {
    if 0 <= k then (if k < |s| then s[..k] else s)
    else if |s| + k < 0 then [] else s[..|s| + k]
  }

  /** `[... for s, i in r if s >= min_score]`: the elements reaching the threshold, in order. */
  function Passing(r: seq<Ranked>, minScore: real): seq<Ranked>
    decreases |r|
  {
    if r == [] then []
    else Passing(r[..|r| - 1], minScore) + (if r[|r| - 1].score >= minScore then [r[|r| - 1]] else [])
  }

  /** `top` of `best_qna_answer` before rounding: the passing entries among the first k. */
  function Shortlist(ranked: seq<Ranked>, k: int, minScore: real): seq<Ranked> {
    Passing(Take(ranked, k), minScore)
  }

  lemma {:induction false} PassingMembers(r: seq<Ranked>, minScore: real)
    ensures forall e :: e in Passing(r, minScore) <==> e in r && e.score >= minScore
    ensures |Passing(r, minScore)| <= |r|
    decreases |r|
  {
    if r != [] {
      var r', x := r[..|r| - 1], r[|r| - 1];
      assert r == r' + [x];
      PassingMembers(r', minScore);
    }
  }

  lemma {:induction false} PassingOrdered(r: seq<Ranked>, minScore: real)
    requires Ordered(r)
    ensures Ordered(Passing(r, minScore))
    decreases |r|
  {
    if r != [] {
      var r', x := r[..|r| - 1], r[|r| - 1];
      assert r == r' + [x];
      PassingOrdered(r', minScore);
      PassingMembers(r', minScore);
      var p := Passing(r', minScore);
      if x.score >= minScore {
        forall i | 0 <= i < |p| ensures Before(p[i], x) {
          assert p[i] in r';
          var q :| 0 <= q < |r'| && r'[q] == p[i];
          assert r[q] == p[i];
        }
        var u := p + [x];
        forall i, j | 0 <= i < j < |u| ensures Before(u[i], u[j]) {
          if j < |p| { assert u[i] == p[i] && u[j] == p[j]; }
        }
      }
    }
  }

  /** In an ordered sequence every element ahead of a member of a prefix is in that prefix. */
  lemma OrderedPrefixClosed(r: seq<Ranked>, m: nat, e: Ranked, x: Ranked)
    requires Ordered(r) && m <= |r|
    requires e in r[..m] && x in r && Before(x, e)
    ensures x in r[..m]
  {
    var q :| 0 <= q < m && r[q] == e;
    var p :| 0 <= p < |r| && r[p] == x;
    assert r[..m][p] == x;
  }

  /** The shortlist of a stably sorted input of increasing corpus indices: its members reach
      the threshold and come from the input, it is in ranking order (ties in corpus order), it
      has at most k members, and it is closed upwards: any input element that the sort puts
      ahead of a member is a member too. */
  lemma ShortlistFacts(s: seq<Ranked>, k: int, minScore: real)
    requires Increasing(s)
    ensures var top := Shortlist(Ranking(s), k, minScore);
            && Ordered(top)
            && (forall e :: e in top ==> e in s && e.score >= minScore)
            && (0 <= k ==> |top| <= k)
            && (forall e, x :: e in top && x in s && Before(x, e) ==> x in top)
  {
    var r := Ranking(s);
    RankingOrdered(s);
    RankingPermutes(s);
    var t := Take(r, k);
    assert t == r[..|t|];
    PassingMembers(t, minScore);
    assert Ordered(t) by {
      forall i, j | 0 <= i < j < |t| ensures Before(t[i], t[j]) {
        assert t[i] == r[i] && t[j] == r[j];
      }
    }
    PassingOrdered(t, minScore);
    var top := Passing(t, minScore);
    forall e | e in top ensures e in s {
      assert e in multiset(r);
    }
    forall e, x | e in top && x in s && Before(x, e) ensures x in top {
      assert x in multiset(r);
      OrderedPrefixClosed(r, |t|, e, x);
    }
  }

  /** The sort puts first an element ahead of every other input element. */
  lemma RankingHead(s: seq<Ranked>)
    requires Increasing(s) && s != []
    ensures Ranking(s) != []
    ensures forall x :: x in s && x != Ranking(s)[0] ==> Before(Ranking(s)[0], x)
  {
    var r := Ranking(s);
    RankingOrdered(s);
    RankingPermutes(s);
    assert s[0] in multiset(r);
    forall x | x in s && x != r[0] ensures Before(r[0], x) {
      assert x in multiset(r);
      var p :| 0 <= p < |r| && r[p] == x;
    }
  }

  lemma {:induction false} PassingHead(r: seq<Ranked>, minScore: real)
    requires r != [] && r[0].score >= minScore
    ensures Passing(r, minScore) != [] && Passing(r, minScore)[0] == r[0]
    decreases |r|
  {
    if |r| > 1 {
      var r' := r[..|r| - 1];
      assert r'[0] == r[0];
      PassingHead(r', minScore);
    }
  }

  /** The head of the shortlist, when there is one, is the head of the whole ranking. */
  lemma ShortlistHead(s: seq<Ranked>, k: int, minScore: real)
    requires Increasing(s)
    requires Shortlist(Ranking(s), k, minScore) != []
    ensures Ranking(s) != []
    ensures Shortlist(Ranking(s), k, minScore)[0] == Ranking(s)[0]
  {
    var r := Ranking(s);
    var t := Take(r, k);
    PassingMembers(t, minScore);
    var h := Shortlist(r, k, minScore)[0];
    assert h in t && h.score >= minScore;
    assert t != [] && t[0] == r[0];
    RankingOrdered(s);
    if h != t[0] {
      var p :| 0 <= p < |t| && t[p] == h;
      assert Before(r[0], r[p]);
    }
    PassingHead(t, minScore);
  }

  /** The answer for a non-empty shortlist: "single" when one entry survives or the rounded
      lead over the second is at least 0.1, else "multi" with every survivor. */
  function Decide(top: seq<Ranked>): Answer
    requires top != []
  {
    var best := top[0];
    if |top| == 1 || Round3(top[0].score) - Round3(top[1].score) >= 0.1 then
      Single(best.entry.a, Round3(best.score), best.entry.q, best.entry.src)
    else
      Multi(seq(|top|, i requires 0 <= i < |top| =>
        Candidate(top[i].entry.q, top[i].entry.a, Round3(top[i].score), top[i].entry.src)))
  }

  /** test.py `best_qna_answer(query, base, k, min_score)` for the scorer `score`. */
  function Rank(base: seq<QnA>, k: int, minScore: real, score: Scorer): Option<Answer> {
    if base == [] then None
    else
      var top := Shortlist(Ranking(Scored(base, score)), k, minScore);
      if top == [] then None else Some(Decide(top))
  }

  /** test.py `best_qna_answer(query, base, k, min_score)` with `_sim` as the scorer. */
  function BestAnswer(query: String, base: seq<QnA>, k: int, minScore: real,
                      ratio: (String, String) -> real): Option<Answer> {
    Rank(base, k, minScore, SimTo(query, ratio))
  }

  /** `round(x, 3)`: the nearest multiple of 0.001, ties to the even multiple. */
  function Round3(x: real): (y: real)
    ensures (y * 1000.0).Floor as real == y * 1000.0
    ensures -0.0005 <= y - x <= 0.0005
    ensures x * 1000.0 - (x * 1000.0).Floor as real == 0.5 ==> (y * 1000.0).Floor % 2 == 0
  {
    var m := x * 1000.0;
    var f := m.Floor;
    var d := m - f as real;
    var n := if d < 0.5 then f else if d > 0.5 then f + 1 else if f % 2 == 0 then f else f + 1;
    n as real / 1000.0
  }

  /** Rounding keeps the order of scores. */
  lemma Round3Monotone(x: real, y: real)
    requires x <= y
    ensures Round3(x) <= Round3(y)
  {
    var fx, fy := (x * 1000.0).Floor, (y * 1000.0).Floor;
    assert fx <= fy;
  }

  lemma ScoredIncreasing(base: seq<QnA>, score: Scorer)
    ensures Increasing(Scored(base, score))
  {
  }

  /** No answer exactly when no entry among the first k of the ranking reaches the threshold;
      in particular for an empty corpus. */
  lemma RankNone(base: seq<QnA>, k: int, minScore: real, score: Scorer)
    ensures Rank(base, k, minScore, score) == None <==>
            forall e :: e in Take(Ranking(Scored(base, score)), k) ==> e.score < minScore
  {
    var r := Ranking(Scored(base, score));
    PassingMembers(Take(r, k), minScore);
    if base == [] {
      assert r == [];
    }
    if Shortlist(r, k, minScore) != [] {
      assert Shortlist(r, k, minScore)[0] in Shortlist(r, k, minScore);
    }
  }

  /** Entry i of the corpus scores highest, and strictly higher than every earlier entry. */
  predicate IsBestAt(base: seq<QnA>, score: Scorer, i: nat)
    requires i < |base|
  {
    && (forall j :: 0 <= j < |base| ==> score(base[j].q) <= score(base[i].q))
    && (forall j :: 0 <= j < i ==> score(base[j].q) < score(base[i].q))
  }

  /** The head of a non-empty shortlist is the first best-scoring entry of the corpus. */
  lemma ShortlistHeadIsBest(base: seq<QnA>, k: int, minScore: real, score: Scorer)
    requires Shortlist(Ranking(Scored(base, score)), k, minScore) != []
    ensures var h := Shortlist(Ranking(Scored(base, score)), k, minScore)[0];
            && h.pos < |base| && h.entry == base[h.pos] && h.score == score(base[h.pos].q)
            && h.score >= minScore && IsBestAt(base, score, h.pos)
  {
    var s := Scored(base, score);
    ShortlistHead(s, k, minScore);
    RankingHead(s);
    ShortlistFacts(s, k, minScore);
    var h := Shortlist(Ranking(s), k, minScore)[0];
    assert h in s;
    var i :| 0 <= i < |s| && s[i] == h;
    forall j | 0 <= j < |base| ensures score(base[j].q) <= score(base[i].q) {
      assert s[j] in s;
    }
    forall j | 0 <= j < i ensures score(base[j].q) < score(base[i].q) {
      assert s[j] in s;
    }
  }

  /** A "single" answer is the first best-scoring corpus entry, with its rounded score, and
      it is given exactly when it is alone on the shortlist or leads the second by at least
      0.1 after rounding. */
  lemma RankSingle(base: seq<QnA>, k: int, minScore: real, score: Scorer)
    requires Rank(base, k, minScore, score).Some?
    ensures var top := Shortlist(Ranking(Scored(base, score)), k, minScore);
            Rank(base, k, minScore, score).value.Single? <==>
            |top| == 1 || Round3(top[0].score) - Round3(top[1].score) >= 0.1
    ensures Rank(base, k, minScore, score).value.Single? ==>
            exists i :: 0 <= i < |base| && IsBestAt(base, score, i) && score(base[i].q) >= minScore &&
              Rank(base, k, minScore, score).value ==
                Single(base[i].a, Round3(score(base[i].q)), base[i].q, base[i].src)
  {
    var top := Shortlist(Ranking(Scored(base, score)), k, minScore);
    ShortlistHeadIsBest(base, k, minScore, score);
    var h := top[0];
    assert h.entry == base[h.pos];
  }

  /** A "multi" answer lists the shortlist in order: between 2 and k candidates, each a corpus
      entry reaching the threshold with its rounded score, rounded scores non-increasing, and
      the rounded lead of the first under 0.1. */
  lemma RankMulti(base: seq<QnA>, k: int, minScore: real, score: Scorer)
    requires Rank(base, k, minScore, score).Some? && Rank(base, k, minScore, score).value.Multi?
    ensures var c := Rank(base, k, minScore, score).value.candidates;
            && 2 <= |c| && (0 <= k ==> |c| <= k)
            && (forall i :: 0 <= i < |c| ==>
                  exists j :: 0 <= j < |base| && score(base[j].q) >= minScore &&
                    c[i] == Candidate(base[j].q, base[j].a, Round3(score(base[j].q)), base[j].src))
            && (forall i, j :: 0 <= i < j < |c| ==> c[i].score >= c[j].score)
            && c[0].score - c[1].score < 0.1
  {
    var s := Scored(base, score);
    var top := Shortlist(Ranking(s), k, minScore);
    ShortlistFacts(s, k, minScore);
    var c := Rank(base, k, minScore, score).value.candidates;
    assert |c| == |top|;
    forall i | 0 <= i < |c|
      ensures exists j :: 0 <= j < |base| && score(base[j].q) >= minScore &&
                c[i] == Candidate(base[j].q, base[j].a, Round3(score(base[j].q)), base[j].src)
    {
      assert top[i] in top;
      var j :| 0 <= j < |s| && s[j] == top[i];
      assert c[i] == Candidate(base[j].q, base[j].a, Round3(score(base[j].q)), base[j].src);
    }
    forall i, j | 0 <= i < j < |c| ensures c[i].score >= c[j].score {
      assert Before(top[i], top[j]);
      Round3Monotone(top[j].score, top[i].score);
    }
  }

  /** test.py `best_qna_answer`: the scored list is sorted in place, then shortlisted. */
  method BestQnaAnswer(base: seq<QnA>, k: int, minScore: real, score: Scorer)
    returns (r: Option<Answer>)
    ensures r == Rank(base, k, minScore, score)
  {
    if base == [] {
      return None;
    }
    var scored := Scored(base, score);
    var a := new Ranked[|scored|](i requires 0 <= i < |scored| => scored[i]);
    assert a[..] == scored;
    SortRanked(a);
    var top := Shortlist(a[..], k, minScore);
    if top == [] {
      return None;
    }
    r := Some(Decide(top));
  }
}
