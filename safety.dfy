/**
 * The safety checker of test.py: `check_profile_vs_drug` (lines 279-288) turns a user profile
 * and a drug record into an ordered list of flags, contraindications first, and `render_flags`
 * (lines 291-296) splits such a list back into its two groups of codes.
 */
module Safety {
  import opened Wrappers
  import opened Text
  import opened Sequences
  import opened Medicines

  /** test.py `Profile`: the user's details; only the three code lists are consulted here. */
  datatype Profile = Profile(
    age: Option<int>,
    sex: String,
    weightKg: Option<real>,
    conditions: seq<String>,
    allergies: seq<String>,
    meds: seq<String>)

  /** `Profile()`: the defaults of the dataclass. */
  const DefaultProfile: Profile := Profile(Some(25), "female", Some(60.0), [], [], [])

  datatype FlagKind = Contraindication | Caution

  /** `{"type": ..., "detail": code}` */
  datatype Flag = Flag(kind: FlagKind, detail: String)

  /** The codes that can raise a contraindication: conditions and allergies. */
  function ContraPool(p: Profile): seq<String> { p.conditions + p.allergies }

  /** The codes that can raise a caution: conditions, allergies and regular medicines. */
  function CautionPool(p: Profile): seq<String> { p.conditions + p.allergies + p.meds }

  /** The codes of `codes` that occur in `pool`, in the order of `codes`. */
  function Hits(codes: seq<String>, pool: seq<String>): seq<String>
    decreases |codes|
  {
    if codes == [] then []
    else
      var last := codes[|codes| - 1];
      Hits(codes[..|codes| - 1], pool) + (if last in pool then [last] else [])
  }

  /** One flag of kind `kind` per code, in order. */
  function Tag(kind: FlagKind, codes: seq<String>): (flags: seq<Flag>)
    ensures |flags| == |codes|
  {
    seq(|codes|, i requires 0 <= i < |codes| => Flag(kind, codes[i]))
  }

  /** What `check_profile_vs_drug(profile, key)` returns for the record `d` of that key. */
  function Flags(p: Profile, d: Drug): seq<Flag> {
    Tag(Contraindication, Hits(d.contraindications, ContraPool(p))) +
    Tag(Caution, Hits(d.cautions, CautionPool(p)))
  }

  /** The codes of the flags of kind `kind`, in list order: one of the two lists of
      `render_flags`. */
  function Details(flags: seq<Flag>, kind: FlagKind): seq<String>
    decreases |flags|
  {
    if flags == [] then []
    else
      var last := flags[|flags| - 1];
      Details(flags[..|flags| - 1], kind) + (if last.kind == kind then [last.detail] else [])
  }

  /** Every contraindication flag comes before every caution flag. */
  predicate ContrasFirst(flags: seq<Flag>) {
    forall i, j :: 0 <= i < j < |flags| && flags[j].kind == Contraindication ==>
      flags[i].kind == Contraindication
  }

  lemma {:induction false} HitsMembers(codes: seq<String>, pool: seq<String>)
    ensures forall c :: c in Hits(codes, pool) <==> c in codes && c in pool
    decreases |codes|
  {
    if codes != [] {
      var codes' := codes[..|codes| - 1];
      assert codes == codes' + [codes[|codes| - 1]];
      HitsMembers(codes', pool);
    }
  }

  /** The hits keep the order of the drug's list. */
  lemma {:induction false} HitsSubsequence(codes: seq<String>, pool: seq<String>)
    ensures IsSubsequence(Hits(codes, pool), codes)
    decreases |codes|
  {
    if codes != [] {
      var codes', last := codes[..|codes| - 1], codes[|codes| - 1];
      assert codes == codes' + [last];
      HitsSubsequence(codes', pool);
      SubsequenceSnoc(Hits(codes', pool), codes', last);
      if last in pool {
        assert Hits(codes, pool) == Hits(codes', pool) + [last];
      } else {
        assert Hits(codes, pool) == Hits(codes', pool);
      }
    }
  }

  /** A larger pool never loses a hit: the old hits are a subsequence of the new ones. */
  lemma {:induction false} HitsMonotone(codes: seq<String>, pool: seq<String>, pool': seq<String>)
    requires forall c :: c in pool ==> c in pool'
    ensures IsSubsequence(Hits(codes, pool), Hits(codes, pool'))
    decreases |codes|
  {
    if codes == [] {
      SubsequenceRefl<String>([]);
    } else {
      var codes', last := codes[..|codes| - 1], codes[|codes| - 1];
      HitsMonotone(codes', pool, pool');
      var h, h' := Hits(codes', pool), Hits(codes', pool');
      SubsequenceSnoc(h, h', last);
      if last in pool {
        assert Hits(codes, pool) == h + [last] && Hits(codes, pool') == h' + [last];
      } else if last in pool' {
        assert Hits(codes, pool) == h && Hits(codes, pool') == h' + [last];
      } else {
        assert Hits(codes, pool) == h && Hits(codes, pool') == h';
      }
    }
  }

  lemma {:induction false} TagSubsequence(kind: FlagKind, x: seq<String>, y: seq<String>)
    requires IsSubsequence(x, y)
    ensures IsSubsequence(Tag(kind, x), Tag(kind, y))
    decreases |y|
  {
    if y != [] {
      var y', z := y[..|y| - 1], y[|y| - 1];
      assert Tag(kind, y) == Tag(kind, y') + [Flag(kind, z)];
      if IsSubsequence(x, y') {
        TagSubsequence(kind, x, y');
        SubsequenceSnoc(Tag(kind, x), Tag(kind, y'), Flag(kind, z));
      } else {
        var x' := x[..|x| - 1];
        TagSubsequence(kind, x', y');
        SubsequenceSnoc(Tag(kind, x'), Tag(kind, y'), Flag(kind, z));
        assert Tag(kind, x) == Tag(kind, x') + [Flag(kind, z)];
      }
    }
  }

  /** A contraindication flag for code c is raised exactly when c is one of the drug's
      contraindications and one of the profile's conditions or allergies; a caution flag
      exactly when c is one of its cautions and a condition, allergy or regular medicine. */
  lemma FlagIff(p: Profile, d: Drug, c: String)
    ensures Flag(Contraindication, c) in Flags(p, d) <==>
            c in d.contraindications && (c in p.conditions || c in p.allergies)
    ensures Flag(Caution, c) in Flags(p, d) <==>
            c in d.cautions && (c in p.conditions || c in p.allergies || c in p.meds)
  {
    var contra := Hits(d.contraindications, ContraPool(p));
    var caution := Hits(d.cautions, CautionPool(p));
    HitsMembers(d.contraindications, ContraPool(p));
    HitsMembers(d.cautions, CautionPool(p));
    var f := Flags(p, d);
    if Flag(Contraindication, c) in f {
      var i :| 0 <= i < |f| && f[i] == Flag(Contraindication, c);
      assert i < |contra| && contra[i] == c;
    }
    if c in contra {
      var i :| 0 <= i < |contra| && contra[i] == c;
      assert f[i] == Flag(Contraindication, c);
    }
    if Flag(Caution, c) in f {
      var i :| 0 <= i < |f| && f[i] == Flag(Caution, c);
      assert caution[i - |contra|] == c;
    }
    if c in caution {
      var i :| 0 <= i < |caution| && caution[i] == c;
      assert f[|contra| + i] == Flag(Caution, c);
    }
  }

  /** Regular medicines never raise a contraindication: the contraindication flags do not
      depend on `meds`. */
  lemma MedsNeverContraindicate(p: Profile, d: Drug, meds: seq<String>)
    ensures Details(Flags(p.(meds := meds), d), Contraindication) ==
            Details(Flags(p, d), Contraindication)
  {
    RenderOfFlags(p, d);
    RenderOfFlags(p.(meds := meds), d);
  }

  /** The flags list holds the contraindications first. */
  lemma FlagsContrasFirst(p: Profile, d: Drug)
    ensures ContrasFirst(Flags(p, d))
  {
    var n := |Hits(d.contraindications, ContraPool(p))|;
    var f := Flags(p, d);
    forall i, j | 0 <= i < j < |f| && f[j].kind == Contraindication
      ensures f[i].kind == Contraindication
    {
      assert j < n;
    }
  }

  /** A profile whose three code lists include those of another raises, for any drug, every
      flag the other raises, in the same relative order. */
  lemma FlagsMonotone(p: Profile, p': Profile, d: Drug)
    requires forall c :: c in p.conditions ==> c in p'.conditions
    requires forall c :: c in p.allergies ==> c in p'.allergies
    requires forall c :: c in p.meds ==> c in p'.meds
    ensures IsSubsequence(Flags(p, d), Flags(p', d))
  {
    HitsMonotone(d.contraindications, ContraPool(p), ContraPool(p'));
    HitsMonotone(d.cautions, CautionPool(p), CautionPool(p'));
    TagSubsequence(Contraindication, Hits(d.contraindications, ContraPool(p)),
                   Hits(d.contraindications, ContraPool(p')));
    TagSubsequence(Caution, Hits(d.cautions, CautionPool(p)), Hits(d.cautions, CautionPool(p')));
    SubsequenceConcat(
      Tag(Contraindication, Hits(d.contraindications, ContraPool(p))),
      Tag(Contraindication, Hits(d.contraindications, ContraPool(p'))),
      Tag(Caution, Hits(d.cautions, CautionPool(p))),
      Tag(Caution, Hits(d.cautions, CautionPool(p'))));
  }

  lemma {:induction false} DetailsConcat(a: seq<Flag>, b: seq<Flag>, kind: FlagKind)
    ensures Details(a + b, kind) == Details(a, kind) + Details(b, kind)
    decreases |b|
  {
    if b == [] {
      assert a + b == a;
    } else {
      var b', z := b[..|b| - 1], b[|b| - 1];
      assert a + b == (a + b') + [z];
      DetailsConcat(a, b', kind);
    }
  }

  lemma {:induction false} DetailsOfTag(kind: FlagKind, other: FlagKind, codes: seq<String>)
    ensures Details(Tag(kind, codes), kind) == codes
    ensures other != kind ==> Details(Tag(kind, codes), other) == []
    decreases |codes|
  {
    if codes != [] {
      var codes' := codes[..|codes| - 1];
      assert Tag(kind, codes)[..|codes| - 1] == Tag(kind, codes');
      DetailsOfTag(kind, other, codes');
    }
  }

  /** `render_flags(check_profile_vs_drug(...)["flags"])` gives the drug's contraindications
      that the profile hits and its cautions that the profile hits, each in the drug's order. */
  lemma RenderOfFlags(p: Profile, d: Drug)
    ensures Details(Flags(p, d), Contraindication) == Hits(d.contraindications, ContraPool(p))
    ensures Details(Flags(p, d), Caution) == Hits(d.cautions, CautionPool(p))
  {
    var contra := Hits(d.contraindications, ContraPool(p));
    var caution := Hits(d.cautions, CautionPool(p));
    DetailsConcat(Tag(Contraindication, contra), Tag(Caution, caution), Contraindication);
    DetailsConcat(Tag(Contraindication, contra), Tag(Caution, caution), Caution);
    DetailsOfTag(Contraindication, Caution, contra);
    DetailsOfTag(Caution, Contraindication, caution);
    assert contra + [] == contra;
    assert [] + caution == caution;
  }

  lemma TagSnoc(kind: FlagKind, codes: seq<String>, c: String)
    ensures Tag(kind, codes + [c]) == Tag(kind, codes) + [Flag(kind, c)]
  {
  }

  /** When the last flag of a contraindications-first list is a contraindication, no flag
      before it is a caution. */
  lemma NoCautionBeforeContra(flags: seq<Flag>)
    requires ContrasFirst(flags) && flags != [] && flags[|flags| - 1].kind == Contraindication
    ensures Details(flags[..|flags| - 1], Caution) == []
  {
    var f' := flags[..|flags| - 1];
    forall i | 0 <= i < |f'| ensures f'[i].kind == Contraindication {
      assert flags[i] == f'[i];
    }
    DetailsAllContra(f');
  }

  /** A list with its contraindications first is rebuilt from the two lists of
      `render_flags`. */
  lemma {:induction false} RenderRoundTrip(flags: seq<Flag>)
    requires ContrasFirst(flags)
    ensures Tag(Contraindication, Details(flags, Contraindication)) +
            Tag(Caution, Details(flags, Caution)) == flags
    decreases |flags|
  {
    if flags != [] {
      var f', z := flags[..|flags| - 1], flags[|flags| - 1];
      assert ContrasFirst(f');
      RenderRoundTrip(f');
      var c, u := Details(f', Contraindication), Details(f', Caution);
      assert flags == f' + [z];
      if z.kind == Contraindication {
        NoCautionBeforeContra(flags);
        TagSnoc(Contraindication, c, z.detail);
      } else {
        TagSnoc(Caution, u, z.detail);
      }
    }
  }

  /** A code is in one of the two lists of `render_flags` exactly when a flag of that kind
      carries it. */
  lemma {:induction false} DetailsMembers(flags: seq<Flag>, kind: FlagKind, c: String)
    ensures c in Details(flags, kind) <==> Flag(kind, c) in flags
    decreases |flags|
  {
    if flags != [] {
      var f', z := flags[..|flags| - 1], flags[|flags| - 1];
      assert flags == f' + [z];
      DetailsMembers(f', kind, c);
    }
  }

  lemma {:induction false} DetailsAllContra(flags: seq<Flag>)
    requires forall i :: 0 <= i < |flags| ==> flags[i].kind == Contraindication
    ensures Details(flags, Caution) == []
    decreases |flags|
  {
    if flags != [] {
      DetailsAllContra(flags[..|flags| - 1]);
    }
  }

  /** test.py `check_profile_vs_drug`: one loop over the contraindications, one over the
      cautions, appending a flag for each code the profile hits. */
  method CheckProfile(p: Profile, d: Drug) returns (flags: seq<Flag>)
    ensures flags == Flags(p, d)
  {
    flags := [];
    var contra := d.contraindications;
    for i := 0 to |contra|
      invariant flags == Tag(Contraindication, Hits(contra[..i], ContraPool(p)))
    {
      var c := contra[i];
      assert contra[..i + 1] == contra[..i] + [c];
      if c in p.conditions || c in p.allergies {
        flags := flags + [Flag(Contraindication, c)];
      }
    }
    assert contra[..|contra|] == contra;
    ghost var head := flags;
    var caution := d.cautions;
    for i := 0 to |caution|
      invariant flags == head + Tag(Caution, Hits(caution[..i], CautionPool(p)))
    {
      var c := caution[i];
      assert caution[..i + 1] == caution[..i] + [c];
      if c in p.conditions || c in p.allergies || c in p.meds {
        flags := flags + [Flag(Caution, c)];
      }
    }
    assert caution[..|caution|] == caution;
  }

  /** test.py `render_flags`: one pass sorting each flag's code into its list. */
  method RenderFlags(flags: seq<Flag>) returns (contra: seq<String>, caution: seq<String>)
    ensures contra == Details(flags, Contraindication)
    ensures caution == Details(flags, Caution)
  {
    contra, caution := [], [];
    for i := 0 to |flags|
      invariant contra == Details(flags[..i], Contraindication)
      invariant caution == Details(flags[..i], Caution)
    {
      var f := flags[i];
      assert flags[..i + 1] == flags[..i] + [f];
      if f.kind == Contraindication {
        contra := contra + [f.detail];
      }
      if f.kind == Caution {
        caution := caution + [f.detail];
      }
    }
    assert flags[..|flags|] == flags;
  }
}
