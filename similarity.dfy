/**
 * The similarity score `_sim` of test.py: 0.6 times the Jaccard index of the two word sets
 * plus 0.4 times a character-sequence ratio, both taken over the `_norm` forms of the texts.
 * The sequence ratio is difflib's `SequenceMatcher.ratio`, a library routine; it enters the
 * model as the function parameter `ratio`, and the lemmas say which of its properties they use.
 */
module Similarity {
  import opened Text

  /** `set(s.split())` */
  function Tokens(s: String): set<String> {
    set w | w in Words(s)
  }

  /** What difflib promises of its ratio: a value in [0, 1], and 1 for equal inputs. */
  ghost predicate IsRatio(ratio: (String, String) -> real) {
    && (forall x, y :: 0.0 <= ratio(x, y) <= 1.0)
    && (forall x :: ratio(x, x) == 1.0)
  }

  lemma SubsetCardinality<T>(x: set<T>, y: set<T>)
    requires x <= y
    ensures |x| <= |y|
    ensures |x| == |y| ==> x == y
  {
    assert x * y == x && x + y == y && x - y == {};
    assert |y - x| + |x| == |y|;
    if |x| == |y| {
      assert y - x == {};
    }
  }

  /** The Jaccard term of `_sim`: |a ∩ b| / |a ∪ b|, and 0 when both sets are empty. */
  function Jaccard(a: set<String>, b: set<String>): (j: real)
    ensures 0.0 <= j <= 1.0
    ensures a + b == {} ==> j == 0.0
    ensures j == 1.0 <==> a == b && a != {}
  {
    if a + b == {} then 0.0
    else
      SubsetCardinality(a * b, a + b);
      var j := (|a * b| as real) / (|a + b| as real);
      assert j == 1.0 ==> a * b == a + b;
      assert a * b == a + b ==> a == b by {
        if a * b == a + b {
          assert forall x :: x in a ==> x in b;
          assert forall x :: x in b ==> x in a;
        }
      }
      assert a == b ==> a * b == a + b;
      j
  }

  lemma JaccardSymmetric(a: set<String>, b: set<String>)
    ensures Jaccard(a, b) == Jaccard(b, a)
  {
    assert a + b == b + a && a * b == b * a;
  }

  /** test.py `_sim(a, b)` with `ratio` standing for `SequenceMatcher(None, x, y).ratio()`. */
  function Sim(a: String, b: String, ratio: (String, String) -> real): real {
    var x, y := NormCompare(a), NormCompare(b);
    0.6 * Jaccard(Tokens(x), Tokens(y)) + 0.4 * ratio(x, y)
  }

  /** A text whose first character is not whitespace has at least one word. */
  lemma {:induction false} TokensNonEmpty(s: String)
    requires s != [] && !IsSpace(s[0])
    ensures Tokens(s) != {}
  {
    assert LeadingSpaces(s) == 0;
    assert TrimStart(s) == s;
    var w := Words(s)[0];
    assert w in Tokens(s);
  }

  /** The score lies in [0, 1] whenever the sequence ratio does. */
  lemma SimBounds(a: String, b: String, ratio: (String, String) -> real)
    requires 0.0 <= ratio(NormCompare(a), NormCompare(b)) <= 1.0
    ensures 0.0 <= Sim(a, b, ratio) <= 1.0
  {
  }

  /** A text that keeps a letter or digit under `_norm` scores 0.6 + 0.4·ratio(x, x) against
      itself, which is 1 for difflib's ratio. */
  lemma SimSelf(a: String, ratio: (String, String) -> real)
    requires NormCompare(a) != []
    ensures Sim(a, a, ratio) == 0.6 + 0.4 * ratio(NormCompare(a), NormCompare(a))
    ensures IsRatio(ratio) ==> Sim(a, a, ratio) == 1.0
  {
    NormCompareShape(a);
    TokensNonEmpty(NormCompare(a));
  }

  /** When neither text has a word, only the sequence ratio counts. */
  lemma SimWithoutWords(a: String, b: String, ratio: (String, String) -> real)
    requires Tokens(NormCompare(a)) == {} && Tokens(NormCompare(b)) == {}
    ensures Sim(a, b, ratio) == 0.4 * ratio(NormCompare(a), NormCompare(b))
  {
  }
}
