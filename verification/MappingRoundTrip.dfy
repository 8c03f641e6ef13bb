/** What a list of mappings denotes, and that serialising and parsing recovers just that. */
module MappingRoundTrip {
  import opened Wrappers
  import opened Mappings
  import opened ArraySets
  import opened MappingCodec

  // ----- what is kept: every mapping once, in strictly increasing order

  ghost predicate StrictlySorted(ks: seq<Mapping>) {
    forall i, j :: 0 <= i < j < |ks| ==> CompareByGenerated(ks[i], ks[j], false) < 0
  }

  ghost predicate AllValid(ms: seq<Mapping>) {
    forall m :: m in ms ==> m.Valid()
  }

  lemma CanonicalCompares(a: Mapping, m: Mapping)
    requires m.Valid()
    ensures CompareByGenerated(a, m.Canonical(), false) == CompareByGenerated(a, m, false)
    ensures CompareByGenerated(m.Canonical(), a, false) == CompareByGenerated(m, a, false)
    ensures m.Canonical().Valid() && m.Canonical().Canonical() == m.Canonical()
  {
  }

  // Everything kept from index i on lies strictly after mapping i - 1.
  lemma {:induction false} KeptIncreases(ms: seq<Mapping>, i: nat)
    requires i <= |ms| && SortedFrom(ms, 1) && AllValid(ms)
    ensures StrictlySorted(Kept(ms, i))
    ensures forall k :: k in Kept(ms, i) ==> k.Valid() && (i > 0 ==> CompareByGenerated(ms[i - 1], k, false) < 0)
    decreases |ms| - i
  {
    hide CompareByGenerated, Mapping.Canonical, Mapping.Valid;
    if i == |ms| {
    } else {
      var m := ms[i];
      assert m in ms && m.Valid();
      KeptIncreases(ms, i + 1);
      CanonicalCompares(m, m);
      var later := Kept(ms, i + 1);
      if i > 0 {
        var before := ms[i - 1];
        assert before in ms && CompareByGenerated(before, m, false) <= 0;
        GeneratedFlip(before, m, false);
        CanonicalCompares(before, m);
        forall k | k in later
          ensures CompareByGenerated(before, k, false) < 0
        {
          GeneratedTransitive(before, m, k, false);
        }
      }
      forall k | k in later
        ensures CompareByGenerated(m.Canonical(), k, false) < 0
      {
        CanonicalCompares(k, m);
      }
    }
  }

  // A mapping that is skipped is recorded through an equal one.
  lemma {:induction false} KeptComplete(ms: seq<Mapping>, i: nat, j: nat)
    requires i <= j < |ms| && AllValid(ms)
    ensures ms[j].Canonical() in Kept(ms, i) || (i > 0 && ms[j].Canonical() == ms[i - 1].Canonical())
    decreases |ms| - i
  {
    hide CompareByGenerated, Mapping.Canonical, Mapping.Valid;
    if i < j {
      KeptComplete(ms, i + 1, j);
    }
    if Skipped(ms, i) {
      assert ms[i] in ms && ms[i - 1] in ms;
      GeneratedZero(ms[i], ms[i - 1]);
    }
  }

  lemma {:induction false} KeptSound(ms: seq<Mapping>, i: nat, k: Mapping)
    requires i <= |ms| && k in Kept(ms, i)
    ensures exists m :: m in ms && k == m.Canonical()
    decreases |ms| - i
  {
    if Skipped(ms, i) || k != ms[i].Canonical() {
      KeptSound(ms, i + 1, k);
    } else {
      assert ms[i] in ms;
    }
  }

  // The list that the format stands for: the distinct recorded mappings in strictly increasing order.
  ghost predicate Denotes(ks: seq<Mapping>, ms: seq<Mapping>) {
    && StrictlySorted(ks)
    && (forall m :: m in ms ==> m.Canonical() in ks)
    && (forall k :: k in ks ==> exists m :: m in ms && k == m.Canonical())
  }

  lemma KeptDenotes(ms: seq<Mapping>)
    requires SortedFrom(ms, 1) && AllValid(ms)
    ensures Denotes(Kept(ms, 0), ms)
  {
    KeptIncreases(ms, 0);
    forall m | m in ms
      ensures m.Canonical() in Kept(ms, 0)
    {
      var j :| 0 <= j < |ms| && ms[j] == m;
      KeptComplete(ms, 0, j);
    }
    forall k | k in Kept(ms, 0)
      ensures exists m :: m in ms && k == m.Canonical()
    {
      KeptSound(ms, 0, k);
    }
  }

  // There is only one such list, whatever permutation the sort chose.
  lemma {:induction false} DenotesUnique(ks: seq<Mapping>, ls: seq<Mapping>)
    requires StrictlySorted(ks) && StrictlySorted(ls)
    requires forall m :: m in ks <==> m in ls
    ensures ks == ls
  {
    hide CompareByGenerated;
    assert ks != [] ==> ks[0] in ks;
    assert ls != [] ==> ls[0] in ls;
    if ks != [] && ls != [] {
      HeadIsLeast(ls, ks[0]);
      HeadIsLeast(ks, ls[0]);
      GeneratedFlip(ks[0], ls[0], false);
      forall m
        ensures m in ks[1..] <==> m in ls[1..]
      {
        TailMembership(ks, m);
        TailMembership(ls, m);
      }
      TailsSorted(ks, ls);
      DenotesUnique(ks[1..], ls[1..]);
      assert ks == [ks[0]] + ks[1..] && ls == [ls[0]] + ls[1..];
    }
  }

  lemma HeadIsLeast(ks: seq<Mapping>, m: Mapping)
    requires m in ks && StrictlySorted(ks)
    ensures m == ks[0] || CompareByGenerated(ks[0], m, false) < 0
  {
  }

  lemma TailsSorted(ks: seq<Mapping>, ls: seq<Mapping>)
    requires ks != [] && ls != [] && StrictlySorted(ks) && StrictlySorted(ls)
    ensures StrictlySorted(ks[1..]) && StrictlySorted(ls[1..])
  {
  }

  lemma SelfCompare(m: Mapping)
    ensures CompareByGenerated(m, m, false) == 0
  {
    CompareZero(OrEmpty(m.source), OrEmpty(m.source));
    CompareZero(OrEmpty(m.name), OrEmpty(m.name));
  }

  lemma TailMembership(ks: seq<Mapping>, m: Mapping)
    requires ks != [] && StrictlySorted(ks)
    ensures m in ks[1..] <==> m in ks && m != ks[0]
  {
    SelfCompare(ks[0]);
    assert ks == [ks[0]] + ks[1..];
    assert forall i | 0 <= i < |ks[1..]| :: CompareByGenerated(ks[0], ks[1..][i], false) < 0;
  }

  // The main result: for any sorted order of valid mappings, reading what was written gives the one list that the
  // mappings stand for, exactly when every delta fits.
  lemma MappingsRoundTrip(ms: seq<Mapping>, sources: seq<string>, names: seq<string>)
    requires SortedFrom(ms, 1) && AllValid(ms) && AllCovered(ms, sources, names)
    requires Distinct(sources) && Distinct(names)
    ensures Denotes(Kept(ms, 0), ms)
    ensures Read(Written(ms, 0, START, sources, names), START, sources, names) == Ok(Kept(ms, 0))
       <==> DeltasFit(ms, 0, START, sources, names)
  {
    ReadWritten(ms, 0, START, sources, names);
    KeptDenotes(ms);
  }

  // ----- a simple sufficient condition for the deltas to fit

  const LIMIT := 0x4000_0000

  predicate WithinLimit(m: Mapping) {
    && m.generatedColumn < LIMIT
    && OrZero(m.originalLine) <= LIMIT
    && OrZero(m.originalColumn) < LIMIT
  }

  predicate PreviousWithinLimit(prev: Previous) {
    && 0 <= prev.column < LIMIT && 0 <= prev.source < LIMIT && 0 <= prev.name < LIMIT
    && 0 <= prev.originalLine < LIMIT && 0 <= prev.originalColumn < LIMIT
  }

  // Lines, columns and table sizes up to 2^30 are enough.
  lemma {:induction false} WithinLimitFits(ms: seq<Mapping>, i: nat, prev: Previous, sources: seq<string>,
                                           names: seq<string>)
    requires i <= |ms| && AllValid(ms) && AllCovered(ms, sources, names)
    requires forall m :: m in ms ==> WithinLimit(m)
    requires |sources| <= LIMIT && |names| <= LIMIT && PreviousWithinLimit(prev)
    ensures DeltasFit(ms, i, prev, sources, names)
    decreases |ms| - i
  {
    if i == |ms| {
    } else {
      var m := ms[i];
      assert m in ms && WithinLimit(m);
      if m.generatedLine <= prev.line && Skipped(ms, i) {
        WithinLimitFits(ms, i + 1, prev, sources, names);
      } else {
        var prev' := if m.generatedLine > prev.line then prev.(line := m.generatedLine, column := 0) else prev;
        DeltasSmall(m, prev', sources, names);
        WithinLimitFits(ms, i + 1, After(m, prev', sources, names), sources, names);
      }
    }
  }

  lemma DeltasSmall(m: Mapping, prev: Previous, sources: seq<string>, names: seq<string>)
    requires m.Valid() && Covered(m, sources, names) && WithinLimit(m)
    requires |sources| <= LIMIT && |names| <= LIMIT && PreviousWithinLimit(prev)
    ensures AllSmall(Deltas(m, prev, sources, names))
    ensures PreviousWithinLimit(After(m, prev, sources, names))
  {
  }
}
