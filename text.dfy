/**
 * The two text normalisers of the chatbot and the string primitives they are built from:
 * `normalize` (strip, lowercase, collapse whitespace runs to one blank) used for intent
 * matching and drug lookup, and `_norm` (lowercase, blank out everything but [a-z0-9] and
 * whitespace, strip) used as the comparison and deduplication key.
 */
module Text {
  import opened Wrappers

  type String = seq<char>

  // ---------------------------------------------------------------------------------------
  // Characters
  // ---------------------------------------------------------------------------------------

  /** Python's `str.isspace`, the class shared by `str.strip()`, `str.split()` and the
      regular-expression class `\s`. */
  predicate IsSpace(c: char) {
    c == ' ' || ('\t' <= c <= '\r') || ('\U{1c}' <= c <= '\U{1f}') ||
    c == '\U{85}' || c == '\U{a0}' || c == '\U{1680}' || ('\U{2000}' <= c <= '\U{200a}') ||
    c == '\U{2028}' || c == '\U{2029}' || c == '\U{202f}' || c == '\U{205f}' || c == '\U{3000}'
  }

  predicate IsUpper(c: char) { 'A' <= c <= 'Z' }

  predicate IsLowerLetter(c: char) { 'a' <= c <= 'z' }

  predicate IsDigit(c: char) { '0' <= c <= '9' }

  /** `str.lower()` on one character, restricted to ASCII letters. */
  function ToLower(c: char): (d: char)
    ensures !IsUpper(d)
    ensures IsSpace(d) <==> IsSpace(c)
    ensures IsUpper(c) ==> IsLowerLetter(d) && d as int == c as int + 32
    ensures !IsUpper(c) ==> d == c
  {
    if IsUpper(c) then (c as int + 32) as char else c
  }

  function ToUpper(c: char): (d: char)
    ensures IsLowerLetter(c) ==> IsUpper(d) && d as int == c as int - 32
    ensures !IsLowerLetter(c) ==> d == c
  {
    if IsLowerLetter(c) then (c as int - 32) as char else c
  }

  // ---------------------------------------------------------------------------------------
  // Whole-string primitives
  // ---------------------------------------------------------------------------------------

  /** `s.lower()` */
  function Lower(s: String): (r: String)
    ensures |r| == |s|
    ensures forall i :: 0 <= i < |s| ==> r[i] == ToLower(s[i])
  {
    seq(|s|, i requires 0 <= i < |s| => ToLower(s[i]))
  }

  /** The length of the leading whitespace run of `s`. */
  function LeadingSpaces(s: String): (n: nat)
    ensures n <= |s|
    ensures forall i :: 0 <= i < n ==> IsSpace(s[i])
    ensures n == |s| || !IsSpace(s[n])
  {
    if s == [] || !IsSpace(s[0]) then 0 else 1 + LeadingSpaces(s[1..])
  }

  /** The length of the trailing whitespace run of `s`. */
  function TrailingSpaces(s: String): (n: nat)
    ensures n <= |s|
    ensures forall i :: |s| - n <= i < |s| ==> IsSpace(s[i])
    ensures n == |s| || !IsSpace(s[|s| - n - 1])
  {
    if s == [] || !IsSpace(s[|s| - 1]) then 0 else 1 + TrailingSpaces(s[..|s| - 1])
  }

  /** `s.lstrip()`: drops the leading whitespace run. */
  function TrimStart(s: String): (r: String)
    ensures |r| <= |s| && r == s[|s| - |r|..]
    ensures r == [] || !IsSpace(r[0])
    ensures forall i :: 0 <= i < |s| - |r| ==> IsSpace(s[i])
  {
    s[LeadingSpaces(s)..]
  }

  /** `s.rstrip()`: drops the trailing whitespace run. */
  function TrimEnd(s: String): (r: String)
    ensures |r| <= |s| && r == s[..|r|]
    ensures r == [] || !IsSpace(r[|r| - 1])
    ensures forall i :: |r| <= i < |s| ==> IsSpace(s[i])
  {
    s[..|s| - TrailingSpaces(s)]
  }

  /** `s.strip()`: `s` without its leading and trailing whitespace runs. */
  function Strip(s: String): (r: String)
    ensures Trimmed(r)
    ensures r == [] <==> forall k :: 0 <= k < |s| ==> IsSpace(s[k])
  {
    TrimEnd(TrimStart(s))
  }

  /** The stripped text is the longest slice of `s` that neither starts nor ends with
      whitespace, everything cut away being whitespace. */
  lemma StripSlice(s: String)
    ensures exists i, j :: 0 <= i <= j <= |s| && Strip(s) == s[i..j] &&
                           (forall k :: 0 <= k < i ==> IsSpace(s[k])) &&
                           (forall k :: j <= k < |s| ==> IsSpace(s[k]))
    ensures forall k :: 0 <= k < |Strip(s)| ==> Strip(s)[k] in s
  {
    var t := TrimStart(s);
    var r := TrimEnd(t);
    assert r == s[|s| - |t|..|s| - |t| + |r|];
    forall k | 0 <= k < |r|
      ensures r[k] in s
    {
      assert r[k] == s[|s| - |t| + k];
    }
  }

  /** `re.sub(r"\s+", " ", s)`: each maximal whitespace run becomes one blank. */
  function Collapse(s: String): (r: String)
    ensures (r == []) <==> (s == [])
    ensures s != [] ==> (IsSpace(r[0]) <==> IsSpace(s[0]))
    ensures s != [] ==> (IsSpace(r[|r| - 1]) <==> IsSpace(s[|s| - 1]))
    decreases |s|
  {
    if s == [] then []
    else if IsSpace(s[0]) then [' '] + Collapse(TrimStart(s[1..]))
    else [s[0]] + Collapse(s[1..])
  }

  predicate SpacesAreBlanks(s: String) { forall i :: 0 <= i < |s| ==> IsSpace(s[i]) ==> s[i] == ' ' }

  predicate NoAdjacentSpaces(s: String) { forall i :: 0 <= i < |s| - 1 ==> !(IsSpace(s[i]) && IsSpace(s[i + 1])) }

  predicate NoUpper(s: String) { forall i :: 0 <= i < |s| ==> !IsUpper(s[i]) }

  predicate Trimmed(s: String) { s == [] || (!IsSpace(s[0]) && !IsSpace(s[|s| - 1])) }

  /** Every whitespace character of a collapsed text is a blank and no two are adjacent. */
  lemma ConsShape(h: char, c: String)
    requires SpacesAreBlanks(c) && NoAdjacentSpaces(c)
    requires IsSpace(h) ==> h == ' ' && (c == [] || !IsSpace(c[0]))
    ensures SpacesAreBlanks([h] + c) && NoAdjacentSpaces([h] + c)
  {
    forall i | 0 <= i < |[h] + c| ensures IsSpace(([h] + c)[i]) ==> ([h] + c)[i] == ' ' {
      if i > 0 { assert ([h] + c)[i] == c[i - 1]; }
    }
    forall i | 0 <= i < |[h] + c| - 1
      ensures !(IsSpace(([h] + c)[i]) && IsSpace(([h] + c)[i + 1]))
    {
      assert ([h] + c)[i + 1] == c[i];
      if i > 0 { assert ([h] + c)[i] == c[i - 1]; }
    }
  }

  lemma {:induction false} CollapseShape(s: String)
    ensures SpacesAreBlanks(Collapse(s)) && NoAdjacentSpaces(Collapse(s))
    decreases |s|
  {
    if s != [] {
      var t := if IsSpace(s[0]) then TrimStart(s[1..]) else s[1..];
      CollapseShape(t);
      var h := if IsSpace(s[0]) then ' ' else s[0];
      ConsShape(h, Collapse(t));
    }
  }

  lemma ConsNoUpper(h: char, c: String)
    requires !IsUpper(h) && NoUpper(c)
    ensures NoUpper([h] + c)
  {
    forall i | 0 <= i < |[h] + c| ensures !IsUpper(([h] + c)[i]) {
      if i > 0 { assert ([h] + c)[i] == c[i - 1]; }
    }
  }

  /** Collapsing introduces no upper-case letter. */
  lemma {:induction false} CollapseKeepsLower(s: String)
    requires NoUpper(s)
    ensures NoUpper(Collapse(s))
    decreases |s|
  {
    if s == [] {
    } else if IsSpace(s[0]) {
      var t := TrimStart(s[1..]);
      assert NoUpper(t) by {
        forall i | 0 <= i < |t| ensures !IsUpper(t[i]) {
          assert t[i] == s[i + |s| - |t|];
        }
      }
      CollapseKeepsLower(t);
      ConsNoUpper(' ', Collapse(t));
    } else {
      var t := s[1..];
      assert NoUpper(t) by {
        forall i | 0 <= i < |t| ensures !IsUpper(t[i]) {
          assert t[i] == s[i + 1];
        }
      }
      CollapseKeepsLower(t);
      ConsNoUpper(s[0], Collapse(t));
    }
  }

  /** `" ".join(parts)` */
  function Join(sep: String, parts: seq<String>): (r: String)
    ensures forall k :: 0 <= k < |parts| ==> |parts[k]| <= |r|
  {
    if parts == [] then []
    else if |parts| == 1 then parts[0]
    else parts[0] + sep + Join(sep, parts[1..])
  }

  // ---------------------------------------------------------------------------------------
  // Substrings (Python's `p in t` and `t.split(p, 1)`)
  // ---------------------------------------------------------------------------------------

  predicate OccursAt(t: String, p: String, i: int) {
    0 <= i && i + |p| <= |t| && t[i..i + |p|] == p
  }

  /** The index of the first occurrence of `p` in `t` at or after `from`. */
  function IndexFrom(t: String, p: String, from: nat): Option<nat>
    decreases |t| - from
  {
    if from + |p| > |t| then None
    else if t[from..from + |p|] == p then Some(from)
    else IndexFrom(t, p, from + 1)
  }

  /** `IndexFrom` finds the first occurrence at or after `from`, or reports that there is none. */
  lemma {:induction false} IndexFromFacts(t: String, p: String, from: nat)
    ensures var r := IndexFrom(t, p, from);
            && (r.Some? ==> from <= r.value && OccursAt(t, p, r.value) &&
                            forall j :: from <= j < r.value ==> !OccursAt(t, p, j))
            && (r.None? ==> forall j :: from <= j ==> !OccursAt(t, p, j))
    decreases |t| - from
  {
    if from + |p| <= |t| && t[from..from + |p|] != p {
      IndexFromFacts(t, p, from + 1);
    }
  }

  /** `t.find(p)`, or None for -1. */
  function IndexOf(t: String, p: String): Option<nat> {
    IndexFrom(t, p, 0)
  }

  /** Python's substring test `p in t`. */
  predicate Contains(t: String, p: String) {
    IndexOf(t, p).Some?
  }

  /** `p in t` holds exactly when `p` occurs somewhere in `t`, and `t.find(p)` is the first
      place it occurs. */
  lemma ContainsIff(t: String, p: String)
    ensures Contains(t, p) <==> exists i :: OccursAt(t, p, i)
    ensures Contains(t, p) ==> OccursAt(t, p, IndexOf(t, p).value) &&
                               forall j :: 0 <= j < IndexOf(t, p).value ==> !OccursAt(t, p, j)
  {
    IndexFromFacts(t, p, 0);
  }

  /** An occurrence with none before it is the one `t.find(p)` reports. */
  lemma IndexOfFirst(t: String, p: String, i: nat)
    requires OccursAt(t, p, i) && forall j :: 0 <= j < i ==> !OccursAt(t, p, j)
    ensures IndexOf(t, p) == Some(i)
  {
    IndexFromFacts(t, p, 0);
  }

  lemma ContainsInfix(a: String, p: String, b: String)
    ensures Contains(a + p + b, p)
  {
    assert (a + p + b)[|a|..|a| + |p|] == p;
    assert OccursAt(a + p + b, p, |a|);
    ContainsIff(a + p + b, p);
  }

  // ---------------------------------------------------------------------------------------
  // The two normalisers
  // ---------------------------------------------------------------------------------------

  /** What `normalize` guarantees of its output. */
  predicate IsNormalized(s: String) {
    NoUpper(s) && SpacesAreBlanks(s) && Trimmed(s) && NoAdjacentSpaces(s)
  }

  /** test.py `normalize`: `re.sub(r"\s+", " ", t.strip().lower())`. */
  function Normalize(t: String): String {
    Collapse(Lower(Strip(t)))
  }

  /** `normalize` yields a lower-case text, trimmed, whose whitespace runs are single blanks;
      it is empty exactly when the input is all whitespace. */
  lemma NormalizeShape(t: String)
    ensures IsNormalized(Normalize(t))
    ensures Normalize(t) == [] <==> forall k :: 0 <= k < |t| ==> IsSpace(t[k])
  {
    var low := Lower(Strip(t));
    CollapseShape(low);
    CollapseKeepsLower(low);
  }

  lemma TailShape(s: String)
    requires s != [] && SpacesAreBlanks(s) && NoAdjacentSpaces(s)
    ensures SpacesAreBlanks(s[1..]) && NoAdjacentSpaces(s[1..])
  {
    var t := s[1..];
    forall i | 0 <= i < |t| ensures IsSpace(t[i]) ==> t[i] == ' ' { assert t[i] == s[i + 1]; }
    forall i | 0 <= i < |t| - 1 ensures !(IsSpace(t[i]) && IsSpace(t[i + 1])) {
      assert t[i] == s[i + 1] && t[i + 1] == s[i + 2];
    }
  }

  /** Under the normal-form conditions, collapsing just keeps the first character. */
  lemma CollapseStep(s: String)
    requires s != [] && SpacesAreBlanks(s) && NoAdjacentSpaces(s)
    ensures Collapse(s) == [s[0]] + Collapse(s[1..])
  {
    if IsSpace(s[0]) {
      assert |s| > 1 ==> !IsSpace(s[1]);
      assert TrimStart(s[1..]) == s[1..];
    }
  }

  lemma {:induction false} CollapseOfNormalized(s: String)
    requires SpacesAreBlanks(s) && NoAdjacentSpaces(s)
    ensures Collapse(s) == s
    decreases |s|
  {
    if s != [] {
      TailShape(s);
      CollapseOfNormalized(s[1..]);
      CollapseStep(s);
      assert [s[0]] + s[1..] == s;
    }
  }

  /** A normalized text is a fixed point of `normalize`. */
  lemma {:induction false} NormalizeFixes(s: String)
    requires IsNormalized(s)
    ensures Normalize(s) == s
  {
    assert TrimStart(s) == s;
    assert TrimEnd(s) == s;
    assert Lower(s) == s;
    CollapseOfNormalized(s);
  }

  /** `normalize` is idempotent. */
  lemma NormalizeIdempotent(t: String)
    ensures Normalize(Normalize(t)) == Normalize(t)
  {
    NormalizeShape(t);
    NormalizeFixes(Normalize(t));
  }

  /** One character of `_norm` before stripping: lower-case it, then blank it unless it is
      a lower-case letter, a digit or whitespace. */
  function KeepOrBlank(c: char): (d: char)
    ensures IsCompareChar(ToLower(c)) ==> d == ToLower(c)
    ensures !IsCompareChar(ToLower(c)) ==> d == ' '
    ensures IsSpace(d) <==> !(IsLowerLetter(ToLower(c)) || IsDigit(ToLower(c)))
  {
    var l := ToLower(c);
    if IsLowerLetter(l) || IsDigit(l) || IsSpace(l) then l else ' '
  }

  predicate IsCompareChar(c: char) { IsLowerLetter(c) || IsDigit(c) || IsSpace(c) }

  /** `re.sub(r"[^a-z0-9\s]", " ", s.lower())`: every character kept or blanked, in place. */
  function Blanked(s: String): (r: String)
    ensures |r| == |s| && forall i :: 0 <= i < |s| ==> r[i] == KeepOrBlank(s[i])
  {
    seq(|s|, i requires 0 <= i < |s| => KeepOrBlank(s[i]))
  }

  /** test.py `_norm`: `re.sub(r"[^a-z0-9\s]", " ", s.lower()).strip()`. */
  function NormCompare(s: String): String {
    Strip(Blanked(s))
  }

  /** `_norm` leaves only lower-case letters, digits and whitespace, and no whitespace at
      either end. */
  lemma NormCompareShape(s: String)
    ensures forall i :: 0 <= i < |NormCompare(s)| ==> IsCompareChar(NormCompare(s)[i])
    ensures Trimmed(NormCompare(s))
  {
    StripSlice(Blanked(s));
  }

  /** `_norm` is the substituted text between its leading and trailing whitespace. */
  lemma NormCompareSlice(s: String)
    ensures exists i, j :: 0 <= i <= j <= |s| && NormCompare(s) == Blanked(s)[i..j] &&
                           (forall k :: 0 <= k < i ==> IsSpace(KeepOrBlank(s[k]))) &&
                           (forall k :: j <= k < |s| ==> IsSpace(KeepOrBlank(s[k])))
  {
    StripSlice(Blanked(s));
  }

  /** `_norm` is empty exactly when the text has no ASCII letter and no digit. */
  lemma NormCompareEmptyIff(s: String)
    ensures NormCompare(s) != [] <==>
            exists i :: 0 <= i < |s| && (IsLowerLetter(ToLower(s[i])) || IsDigit(ToLower(s[i])))
  {
    var b := Blanked(s);
    if NormCompare(s) == [] {
      forall i | 0 <= i < |s| ensures !(IsLowerLetter(ToLower(s[i])) || IsDigit(ToLower(s[i]))) {
        assert IsSpace(b[i]);
      }
    } else {
      var i :| 0 <= i < |b| && !IsSpace(b[i]);
      assert b[i] == KeepOrBlank(s[i]);
    }
  }

  // ---------------------------------------------------------------------------------------
  // Words (Python's `s.split()` with no argument)
  // ---------------------------------------------------------------------------------------

  /** The length of the longest prefix of `s` free of whitespace. */
  function WordLength(s: String): (n: nat)
    ensures n <= |s|
    ensures forall i :: 0 <= i < n ==> !IsSpace(s[i])
    ensures n == |s| || IsSpace(s[n])
  {
    if s == [] || IsSpace(s[0]) then 0 else 1 + WordLength(s[1..])
  }

  /** A word of `s.split()`: non-empty and free of whitespace. */
  predicate IsWord(w: String) { w != [] && forall i :: 0 <= i < |w| ==> !IsSpace(w[i]) }

  /** `s.split()`: the maximal whitespace-free runs of `s`, in order. */
  function Words(s: String): (ws: seq<String>)
    decreases |s|
  {
    var t := TrimStart(s);
    if t == [] then []
    else
      var n := WordLength(t);
      assert n > 0 by { assert !IsSpace(t[0]); }
      [t[..n]] + Words(t[n..])
  }

  lemma FirstWord(t: String)
    requires t != [] && !IsSpace(t[0])
    ensures IsWord(t[..WordLength(t)])
  {
    var w := t[..WordLength(t)];
    forall i | 0 <= i < |w| ensures !IsSpace(w[i]) { assert w[i] == t[i]; }
  }

  lemma AllWordsCons(w: String, rest: seq<String>)
    requires IsWord(w) && forall k :: 0 <= k < |rest| ==> IsWord(rest[k])
    ensures forall k :: 0 <= k < |[w] + rest| ==> IsWord(([w] + rest)[k])
  {
    forall k | 0 <= k < |[w] + rest| ensures IsWord(([w] + rest)[k]) {
      if k > 0 { assert ([w] + rest)[k] == rest[k - 1]; }
    }
  }

  /** Every element of `s.split()` is a word. */
  lemma {:induction false} WordsAreWords(s: String)
    ensures forall k :: 0 <= k < |Words(s)| ==> IsWord(Words(s)[k])
    decreases |s|
  {
    var t := TrimStart(s);
    if t != [] {
      var n := WordLength(t);
      FirstWord(t);
      WordsAreWords(t[n..]);
      AllWordsCons(t[..n], Words(t[n..]));
    }
  }

  lemma {:induction false} WordsEmptyIff(s: String)
    ensures Words(s) == [] <==> forall k :: 0 <= k < |s| ==> IsSpace(s[k])
  {
    var t := TrimStart(s);
    if t != [] {
      assert !IsSpace(s[|s| - |t|]);
    }
  }

  /** A whitespace character in front of a text adds no word. */
  lemma ConcatAssoc(a: String, b: String, c: String)
    ensures a + (b + c) == (a + b) + c
  {
  }

  lemma ConcatSlices(a: String, b: String)
    ensures (a + b)[..|a|] == a && (a + b)[|a|..] == b
  {
  }

  lemma SliceParts(u: String, i: nat, j: nat)
    requires i <= j <= |u|
    ensures u[i..j] + u[j..] == u[i..]
  {
  }

  lemma HeadTail(s: String)
    requires s != []
    ensures [s[0]] + s[1..] == s
  {
  }

  lemma SplitAt(s: String, n: nat)
    requires n <= |s|
    ensures s[..n] + s[n..] == s
  {
  }

  lemma WordsSpace(c: char, y: String)
    requires IsSpace(c)
    ensures Words([c] + y) == Words(y)
  {
    assert ([c] + y)[1..] == y;
    assert TrimStart([c] + y) == TrimStart(y);
  }

  lemma WordsTrimStart(s: String)
    ensures Words(TrimStart(s)) == Words(s)
  {
    assert TrimStart(TrimStart(s)) == TrimStart(s);
  }

  lemma {:induction false} WordLengthOf(w: String, y: String)
    requires forall i :: 0 <= i < |w| ==> !IsSpace(w[i])
    requires y == [] || IsSpace(y[0])
    ensures WordLength(w + y) == |w|
    decreases |w|
  {
    if w == [] {
      assert w + y == y;
    } else {
      assert (w + y)[1..] == w[1..] + y;
      WordLengthOf(w[1..], y);
    }
  }

  /** A word followed by whitespace or the end is the first word. */
  lemma WordsCons(w: String, y: String)
    requires IsWord(w) && (y == [] || IsSpace(y[0]))
    ensures Words(w + y) == [w] + Words(y)
  {
    var s := w + y;
    assert s[0] == w[0];
    assert LeadingSpaces(s) == 0;
    WordLengthOf(w, y);
    ConcatSlices(w, y);
  }

  lemma {:induction false} WordsDropLeading(u: String, i: nat)
    requires i <= |u| && forall k :: 0 <= k < i ==> IsSpace(u[k])
    ensures Words(u[i..]) == Words(u)
    decreases i
  {
    if i > 0 {
      HeadTail(u);
      WordsSpace(u[0], u[1..]);
      WordsDropLeading(u[1..], i - 1);
      assert u[1..][i - 1..] == u[i..];
    }
  }

  /** Trailing whitespace adds no word. */
  lemma {:induction false} WordsTrailing(x: String, z: String)
    requires forall k :: 0 <= k < |z| ==> IsSpace(z[k])
    ensures Words(x + z) == Words(x)
    decreases |x|
  {
    if x == [] {
      assert x + z == z;
      WordsEmptyIff(z);
      WordsEmptyIff(x);
    } else if IsSpace(x[0]) {
      HeadTail(x);
      ConcatAssoc([x[0]], x[1..], z);
      WordsSpace(x[0], x[1..]);
      WordsSpace(x[0], x[1..] + z);
      WordsTrailing(x[1..], z);
    } else {
      var n := WordLength(x);
      var w, y := x[..n], x[n..];
      FirstWord(x);
      SplitAt(x, n);
      ConcatAssoc(w, y, z);
      assert y + z == [] || IsSpace((y + z)[0]) by {
        if y == [] { assert y + z == z; }
      }
      WordsCons(w, y);
      WordsCons(w, y + z);
      WordsTrailing(y, z);
    }
  }

  lemma CollapseWordChar(s: String)
    requires s != [] && !IsSpace(s[0])
    ensures Collapse(s) == [s[0]] + Collapse(s[1..])
  {
  }

  lemma CollapseSpaceRun(s: String)
    requires s != [] && IsSpace(s[0])
    ensures Collapse(s) == [' '] + Collapse(TrimStart(s[1..]))
  {
  }

  lemma ConsSlices(s: String, n: nat)
    requires 0 < n <= |s|
    ensures [s[0]] + s[1..][..n - 1] == s[..n] && s[1..][n - 1..] == s[n..]
  {
    assert [s[0]] + s[1..][..n - 1] == s[..n];
  }

  /** The non-whitespace prefix of a text passes the substitution unchanged. */
  lemma {:induction false} CollapsePrefix(s: String, n: nat)
    requires n <= |s| && forall i :: 0 <= i < n ==> !IsSpace(s[i])
    ensures Collapse(s) == s[..n] + Collapse(s[n..])
    decreases n
  {
    if n == 0 {
      assert s[..0] == [] && s[0..] == s;
    } else {
      CollapseWordChar(s);
      CollapsePrefix(s[1..], n - 1);
      ConsSlices(s, n);
      ConcatAssoc([s[0]], s[1..][..n - 1], Collapse(s[n..]));
    }
  }

  lemma CollapseHeadSpace(y: String)
    requires y == [] || IsSpace(y[0])
    ensures Collapse(y) == [] || IsSpace(Collapse(y)[0])
  {
  }

  lemma WordsAfterSpace(s: String)
    requires s != [] && IsSpace(s[0])
    ensures Words(s) == Words(TrimStart(s[1..]))
  {
    WordsTrimStart(s[1..]);
    HeadTail(s);
    WordsSpace(s[0], s[1..]);
  }

  lemma CollapseWordsAfterSpace(s: String)
    requires s != [] && IsSpace(s[0])
    ensures Words(Collapse(s)) == Words(Collapse(TrimStart(s[1..])))
  {
    CollapseSpaceRun(s);
    WordsSpace(' ', Collapse(TrimStart(s[1..])));
  }

  lemma CollapseWordsWord(s: String, n: nat)
    requires s != [] && !IsSpace(s[0]) && n == WordLength(s)
    requires Words(Collapse(s[n..])) == Words(s[n..])
    ensures Words(Collapse(s)) == Words(s)
  {
    var w, y := s[..n], s[n..];
    SplitAt(s, n);
    FirstWord(s);
    CollapsePrefix(s, n);
    CollapseHeadSpace(y);
    WordsCons(w, Collapse(y));
    WordsCons(w, y);
  }

  /** `re.sub(r"\s+", " ", s)` keeps the words of `s`: `s.split()` is unchanged. */
  lemma {:induction false} CollapseWords(s: String)
    ensures Words(Collapse(s)) == Words(s)
    decreases |s|
  {
    if s != [] {
      if IsSpace(s[0]) {
        CollapseWords(TrimStart(s[1..]));
        WordsAfterSpace(s);
        CollapseWordsAfterSpace(s);
      } else {
        var n := WordLength(s);
        CollapseWords(s[n..]);
        CollapseWordsWord(s, n);
      }
    }
  }

  lemma LowerSlice(t: String, i: nat, j: nat)
    requires i <= j <= |t|
    ensures Lower(t[i..j]) == Lower(t)[i..j]
  {
  }

  /** Whitespace cut away from either end of a text costs it no word. */
  lemma WordsInner(u: String, i: nat, j: nat)
    requires i <= j <= |u|
    requires forall k :: 0 <= k < i ==> IsSpace(u[k])
    requires forall k :: j <= k < |u| ==> IsSpace(u[k])
    ensures Words(u[i..j]) == Words(u)
  {
    SliceParts(u, i, j);
    forall k | 0 <= k < |u[j..]| ensures IsSpace(u[j..][k]) {
      assert u[j..][k] == u[j + k];
    }
    WordsTrailing(u[i..j], u[j..]);
    WordsDropLeading(u, i);
  }

  lemma StripBounds(t: String) returns (i: nat, j: nat)
    ensures i <= j <= |t| && Strip(t) == t[i..j]
    ensures forall k :: 0 <= k < i ==> IsSpace(t[k])
    ensures forall k :: j <= k < |t| ==> IsSpace(t[k])
  {
    StripSlice(t);
    i, j :| 0 <= i <= j <= |t| && Strip(t) == t[i..j] &&
            (forall k :: 0 <= k < i ==> IsSpace(t[k])) && (forall k :: j <= k < |t| ==> IsSpace(t[k]));
  }

  /** Stripping before lowering keeps the words of the lowered text. */
  lemma WordsStripLower(t: String)
    ensures Words(Lower(Strip(t))) == Words(Lower(t))
  {
    var i, j := StripBounds(t);
    LowerSlice(t, i, j);
    WordsInner(Lower(t), i, j);
  }

  /** `normalize(t).split()` is `t.lower().split()`: normalising only lowers the letters
      and respaces the text, it never joins or splits words. */
  lemma NormalizeWords(t: String)
    ensures Words(Normalize(t)) == Words(Lower(t))
  {
    CollapseWords(Lower(Strip(t)));
    WordsStripLower(t);
  }

  // ---------------------------------------------------------------------------------------
  // Title case (Python's `str.title()` on ASCII) and single-character replace
  // ---------------------------------------------------------------------------------------

  predicate IsLetter(c: char) { IsUpper(c) || IsLowerLetter(c) }

  /** `s.title()`: a letter is upper-cased when it starts a run of letters and lower-cased
      otherwise; every other character is kept. */
  function Title(s: String): String {
    seq(|s|, i requires 0 <= i < |s| =>
      if !IsLetter(s[i]) then s[i]
      else if i == 0 || !IsLetter(s[i - 1]) then ToUpper(ToLower(s[i]))
      else ToLower(s[i]))
  }

  /** `title` keeps the length and every non-letter, upper-cases each letter that starts a run
      of letters and lower-cases every other letter. */
  lemma TitleAt(s: String, i: nat)
    requires i < |s|
    ensures |Title(s)| == |s|
    ensures !IsLetter(s[i]) ==> Title(s)[i] == s[i]
    ensures IsLetter(s[i]) ==> ToLower(Title(s)[i]) == ToLower(s[i])
    ensures IsLetter(s[i]) && (i == 0 || !IsLetter(s[i - 1])) ==> IsUpper(Title(s)[i])
    ensures IsLetter(s[i]) && i > 0 && IsLetter(s[i - 1]) ==> IsLowerLetter(Title(s)[i])
  {
    var l := ToLower(s[i]);
    assert IsLetter(s[i]) ==> IsLowerLetter(l);
  }

  lemma TitleFacts(s: String)
    ensures |Title(s)| == |s|
    ensures forall i :: 0 <= i < |s| && !IsLetter(s[i]) ==> Title(s)[i] == s[i]
    ensures forall i :: 0 <= i < |s| && IsLetter(s[i]) ==> ToLower(Title(s)[i]) == ToLower(s[i])
    ensures forall i :: 0 <= i < |s| && IsLetter(s[i]) && (i == 0 || !IsLetter(s[i - 1])) ==>
              IsUpper(Title(s)[i])
    ensures forall i :: 0 <= i < |s| && IsLetter(s[i]) && i > 0 && IsLetter(s[i - 1]) ==>
              IsLowerLetter(Title(s)[i])
  {
    assert |Title(s)| == |s|;
    forall i | 0 <= i < |s|
      ensures !IsLetter(s[i]) ==> Title(s)[i] == s[i]
      ensures IsLetter(s[i]) ==> ToLower(Title(s)[i]) == ToLower(s[i])
      ensures IsLetter(s[i]) && (i == 0 || !IsLetter(s[i - 1])) ==> IsUpper(Title(s)[i])
      ensures IsLetter(s[i]) && i > 0 && IsLetter(s[i - 1]) ==> IsLowerLetter(Title(s)[i])
    {
      TitleAt(s, i);
    }
  }

  /** `s.replace(from, to)` for single characters. */
  function ReplaceChar(s: String, from: char, to: char): String {
    seq(|s|, i requires 0 <= i < |s| => if s[i] == from then to else s[i])
  }
}
