/** The evaluation bookkeeping of a chromosome: fitness and performance values that may be
    unset (NaN), resets a "stable" flag can block, a one-shot species assignment, identity
    by id, gene lookup by innovation id, and Pareto dominance with its NaN special cases. */
module Chromosomes {
  import opened Wrappers

  /** A double that may be NaN. The model does not represent the infinities. */
  datatype Num = NaN | Val(v: real)

  /** The double comparison `a < b`: false whenever an operand is NaN. */
  predicate Less(a: Num, b: Num) {
    a.Val? && b.Val? && a.v < b.v
  }

  /** A value the range-checking setters refuse: `x < 0 || x > 1`, which NaN passes. */
  predicate OutOfUnit(x: Num) {
    Less(x, Val(0.0)) || Less(Val(1.0), x)
  }

  /** The setters refuse exactly the numbers outside [0, 1]; NaN is always accepted. */
  lemma OutOfUnitMeaning(x: Num)
    ensures OutOfUnit(x) <==> x.Val? && !(0.0 <= x.v <= 1.0)
    ensures !OutOfUnit(NaN)
  {
  }

  /** A gene; genes are equal when their innovation ids are, and the rest of the gene is
      kept as an opaque payload. */
  datatype Allele = Allele(innovationId: int, payload: int)

  /** The species a chromosome can be assigned to (its contents are not modelled). */
  datatype Species = Species(id: int)

  /** A recorded novelty behaviour (its contents are not modelled). */
  datatype Behaviour = Behaviour(values: seq<real>)

  /** The genes of a sorted set: strictly increasing innovation ids. */
  predicate SortedById(s: seq<Allele>) {
    forall i, j :: 0 <= i < j < |s| ==> s[i].innovationId < s[j].innovationId
  }

  /** The first gene in `s` with innovation id `id`, if any. */
  function FirstMatch(s: seq<Allele>, id: int): (r: Option<Allele>)
    ensures r.None? <==> forall i :: 0 <= i < |s| ==> s[i].innovationId != id
    ensures r.Some? ==> exists i :: (0 <= i < |s| && s[i] == r.value && r.value.innovationId == id &&
                                    forall j :: 0 <= j < i ==> s[j].innovationId != id)
  {
    if |s| == 0 then None
    else if s[0].innovationId == id then Some(s[0])
    else
      var r := FirstMatch(s[1..], id);
      ShiftMatch(s, id, r);
      r
  }

  /** The match found in the tail of `s` is a match of `s` one position later. */
  lemma ShiftMatch(s: seq<Allele>, id: int, r: Option<Allele>)
    requires |s| > 0 && s[0].innovationId != id
    requires r.None? <==> forall i :: 0 <= i < |s[1..]| ==> s[1..][i].innovationId != id
    requires r.Some? ==> exists i :: (0 <= i < |s[1..]| && s[1..][i] == r.value && r.value.innovationId == id &&
                                     forall j :: 0 <= j < i ==> s[1..][j].innovationId != id)
    ensures r.None? <==> forall i :: 0 <= i < |s| ==> s[i].innovationId != id
    ensures r.Some? ==> exists i :: (0 <= i < |s| && s[i] == r.value && r.value.innovationId == id &&
                                    forall j :: 0 <= j < i ==> s[j].innovationId != id)
  {
    if r.Some? {
      var i :| 0 <= i < |s[1..]| && s[1..][i] == r.value && r.value.innovationId == id &&
        forall j :: 0 <= j < i ==> s[1..][j].innovationId != id;
      assert s[i + 1] == r.value;
      assert forall j :: 0 <= j < i + 1 ==> s[j].innovationId != id by {
        forall j | 0 <= j < i + 1
          ensures s[j].innovationId != id
        {
          if j > 0 {
            assert s[j] == s[1..][j - 1];
          }
        }
      }
    } else {
      forall i | 1 <= i < |s|
        ensures s[i].innovationId != id
      {
        assert s[i] == s[1..][i - 1];
      }
    }
  }

  /** In a sorted gene set ids are unique, so the first match is the only one. */
  lemma FirstMatchUnique(s: seq<Allele>, id: int, k: int)
    requires SortedById(s) && 0 <= k < |s| && s[k].innovationId == id
    ensures FirstMatch(s, id) == Some(s[k])
  {
    var i :| 0 <= i < |s| && s[i] == FirstMatch(s, id).value && s[i].innovationId == id &&
      forall j :: 0 <= j < i ==> s[j].innovationId != id;
  }

  /** Long.compareTo: -1, 0 or 1 as `a` is below, equal to or above `b`. */
  function CompareIds(a: int, b: int): (r: int)
    ensures r == -1 || r == 0 || r == 1
    ensures r < 0 <==> a < b
    ensures r == 0 <==> a == b
    ensures r > 0 <==> a > b
  {
    if a < b then -1 else if a == b then 0 else 1
  }

  /** Comparing ids is antisymmetric and transitive: a total order. */
  lemma CompareIdsOrder(a: int, b: int, c: int)
    ensures CompareIds(a, b) == -CompareIds(b, a)
    ensures CompareIds(a, b) <= 0 && CompareIds(b, c) <= 0 ==> CompareIds(a, c) <= 0
  {
  }

  // ---------------------------------------------------------------------------
  // Pareto dominance

  /** The fitness data dominance reads: the per-objective values and the overall value. */
  datatype Fitness = Fitness(values: seq<Num>, overall: Num)

  /** Some of the first `n` values is NaN. */
  predicate HasNaN(values: seq<Num>, n: int)
    requires n <= |values|
  {
    exists i :: 0 <= i < n && values[i].NaN?
  }

  /** No objective of `a` is below the corresponding one of `b`, and at least one is above. */
  predicate ParetoBetter(a: seq<Num>, b: seq<Num>, n: int)
    requires n <= |a| && n <= |b|
  {
    (forall i :: 0 <= i < n ==> !Less(a[i], b[i])) && exists i :: 0 <= i < n && Less(b[i], a[i])
  }

  /** Whether `a` dominates `b`, over the objectives of `a` (b must have at least as many):
      with a single objective that is NaN on both sides the overall values are compared;
      otherwise a NaN in `a` means no, a NaN only in `b` means yes, and without NaN it is
      Pareto dominance. */
  predicate Dominates(a: Fitness, b: Fitness)
    requires |a.values| <= |b.values|
  {
    var n := |a.values|;
    if n == 1 && HasNaN(a.values, n) && HasNaN(b.values, n) then Less(b.overall, a.overall)
    else if HasNaN(a.values, n) then false
    else if HasNaN(b.values, n) then true
    else ParetoBetter(a.values, b.values, n)
  }

  /** Without NaN on either side, dominance is Pareto dominance. */
  lemma DominatesWithoutNaN(a: Fitness, b: Fitness)
    requires |a.values| <= |b.values|
    requires !HasNaN(a.values, |a.values|) && !HasNaN(b.values, |a.values|)
    ensures Dominates(a, b) <==>
      (forall i :: 0 <= i < |a.values| ==> a.values[i].v >= b.values[i].v) &&
      exists i :: 0 <= i < |a.values| && a.values[i].v > b.values[i].v
  {
  }

  /** The NaN cases: both single objectives NaN compares the overall values; otherwise a NaN
      in `a` never dominates and a NaN only in `b` always is dominated. */
  lemma DominatesNaNCases(a: Fitness, b: Fitness)
    requires |a.values| <= |b.values|
    ensures var n := |a.values|;
      (n == 1 && a.values[0].NaN? && b.values[0].NaN? ==>
        (Dominates(a, b) <==> a.overall.Val? && b.overall.Val? && a.overall.v > b.overall.v)) &&
      (HasNaN(a.values, n) && !(n == 1 && b.values[0].NaN?) ==> !Dominates(a, b)) &&
      (!HasNaN(a.values, n) && HasNaN(b.values, n) ==> Dominates(a, b))
  {
    var n := |a.values|;
    if n == 1 && a.values[0].NaN? && b.values[0].NaN? {
      assert HasNaN(a.values, n) && HasNaN(b.values, n);
    }
    if n == 1 && HasNaN(a.values, n) && HasNaN(b.values, n) {
      var i :| 0 <= i < n && b.values[i].NaN?;
      assert i == 0;
    }
  }

  /** No fitness dominates itself. */
  lemma DominatesIrreflexive(a: Fitness)
    ensures !Dominates(a, a)
  {
  }

  /** With equal objective counts, dominance is transitive. */
  lemma DominatesTransitive(a: Fitness, b: Fitness, c: Fitness)
    requires |a.values| == |b.values| == |c.values|
    requires Dominates(a, b) && Dominates(b, c)
    ensures Dominates(a, c)
  {
    var n := |a.values|;
    if !HasNaN(a.values, n) && !HasNaN(b.values, n) && !HasNaN(c.values, n) {
      var k :| 0 <= k < n && Less(b.values[k], a.values[k]);
      assert !Less(b.values[k], c.values[k]);
      assert Less(c.values[k], a.values[k]);
      forall i | 0 <= i < n
        ensures !Less(a.values[i], c.values[i])
      {
        assert !Less(a.values[i], b.values[i]) && !Less(b.values[i], c.values[i]);
      }
    }
  }

  /** With equal objective counts, dominance is asymmetric. */
  lemma DominatesAsymmetric(a: Fitness, b: Fitness)
    requires |a.values| == |b.values|
    ensures Dominates(a, b) ==> !Dominates(b, a)
  {
    if Dominates(a, b) && Dominates(b, a) {
      DominatesTransitive(a, b, a);
      DominatesIrreflexive(a);
    }
  }

  /** With unequal objective counts transitivity fails: a single objective of 0.5
      dominates (0.3, 0.4), which dominates (0.9, NaN) through its NaN, yet 0.5 is below 0.9. */
  lemma DominatesNotTransitive()
    ensures var a, b, c := Fitness([Val(0.5)], NaN), Fitness([Val(0.3), Val(0.4)], NaN), Fitness([Val(0.9), NaN], NaN);
      Dominates(a, b) && Dominates(b, c) && !Dominates(a, c)
  {
    var a, b, c := Fitness([Val(0.5)], NaN), Fitness([Val(0.3), Val(0.4)], NaN), Fitness([Val(0.9), NaN], NaN);
    assert Less(b.values[0], a.values[0]);
    assert c.values[1].NaN?;
    assert Less(a.values[0], c.values[0]);
  }

  // ---------------------------------------------------------------------------
  // The chromosome

  /** How the per-objective fitness setter ends: the value is stored, refused for being
      outside [0, 1], or the objective index is outside the fitness array. */
  datatype SetOutcome = Stored | ValueOutOfRange | IndexOutOfRange

  class Chromosome {
    const id: int
    /** The sorted gene set; absent after the persistence-only constructor. */
    const alleles: Option<seq<Allele>>
    const fitnessValue: array<Num>
    var overallFitness: Num
    var performance: Num
    var evaluationDataStable: bool
    var specie: Option<Species>
    /** The behaviour slots; null when the chromosome records no behaviours. */
    const behaviours: array?<Option<Behaviour>>

    ghost predicate Valid()
    {
      alleles.Some? ==> SortedById(alleles.value)
    }

    /** A chromosome over the given gene set: every fitness value unset, behaviour slots
        only when `behaviourCount` is positive, no species. */
    constructor (material: seq<Allele>, id: int, objectiveCount: nat, behaviourCount: int)
      requires SortedById(material)
      ensures Valid() && this.id == id && alleles == Some(material)
      ensures fitnessValue.Length == objectiveCount && forall i :: 0 <= i < objectiveCount ==> fitnessValue[i].NaN?
      ensures fresh(fitnessValue) && (behaviours != null ==> fresh(behaviours))
      ensures NoveltyObjectiveCount() == if behaviourCount > 0 then behaviourCount else 0
      ensures ObjectiveCount() == objectiveCount
      ensures overallFitness == NaN && performance == NaN && !evaluationDataStable && specie == None
    {
      this.id := id;
      alleles := Some(material);
      fitnessValue := new Num[objectiveCount](_ => NaN);
      if behaviourCount > 0 {
        behaviours := new Option<Behaviour>[behaviourCount](_ => None);
      } else {
        behaviours := null;
      }
      overallFitness := NaN;
      performance := NaN;
      evaluationDataStable := false;
      specie := None;
    }

    /** The persistence-only constructor: default id -1 and no gene set yet. The one without
        arguments is this with one objective and no behaviours. */
    constructor Blank(objectiveCount: nat, behaviourCount: int)
      ensures Valid() && id == -1 && alleles == None
      ensures fitnessValue.Length == objectiveCount && forall i :: 0 <= i < objectiveCount ==> fitnessValue[i].NaN?
      ensures fresh(fitnessValue) && (behaviours != null ==> fresh(behaviours))
      ensures NoveltyObjectiveCount() == if behaviourCount > 0 then behaviourCount else 0
      ensures overallFitness == NaN && performance == NaN && !evaluationDataStable && specie == None
    {
      id := -1;
      alleles := None;
      fitnessValue := new Num[objectiveCount](_ => NaN);
      if behaviourCount > 0 {
        behaviours := new Option<Behaviour>[behaviourCount](_ => None);
      } else {
        behaviours := null;
      }
      overallFitness := NaN;
      performance := NaN;
      evaluationDataStable := false;
      specie := None;
    }

    /** The number of objectives: the length of the fitness array. */
    function ObjectiveCount(): (n: nat)
      ensures n == fitnessValue.Length
    {
      fitnessValue.Length
    }

    /** The number of behaviour slots, 0 without any. */
    function NoveltyObjectiveCount(): (n: nat)
      ensures behaviours == null ==> n == 0
      ensures behaviours != null ==> n == behaviours.Length
    {
      if behaviours == null then 0 else behaviours.Length
    }

    /** Sets the overall fitness; a value outside [0, 1] is refused and nothing changes. */
    method SetFitnessValue(x: Num) returns (ok: bool)
      modifies this
      ensures ok == !OutOfUnit(x)
      ensures overallFitness == if ok then x else old(overallFitness)
      ensures performance == old(performance) && specie == old(specie)
      ensures evaluationDataStable == old(evaluationDataStable)
    {
      if OutOfUnit(x) {
        return false;
      }
      overallFitness := x;
      return true;
    }

    /** Sets the fitness of one objective; a value outside [0, 1] is refused first, then an
        index outside the array; only a stored value changes anything. */
    method SetObjectiveFitnessValue(x: Num, objective: int) returns (r: SetOutcome)
      modifies fitnessValue
      ensures r == if OutOfUnit(x) then ValueOutOfRange
        else if !(0 <= objective < fitnessValue.Length) then IndexOutOfRange
        else Stored
      ensures fitnessValue[..] == if r == Stored then old(fitnessValue[..])[objective := x] else old(fitnessValue[..])
    {
      if OutOfUnit(x) {
        return ValueOutOfRange;
      }
      if !(0 <= objective < fitnessValue.Length) {
        return IndexOutOfRange;
      }
      fitnessValue[objective] := x;
      return Stored;
    }

    /** Sets the performance; a value outside [0, 1] is refused and nothing changes. */
    method SetPerformanceValue(x: Num) returns (ok: bool)
      modifies this
      ensures ok == !OutOfUnit(x)
      ensures performance == if ok then x else old(performance)
      ensures overallFitness == old(overallFitness) && specie == old(specie)
      ensures evaluationDataStable == old(evaluationDataStable)
    {
      if OutOfUnit(x) {
        return false;
      }
      performance := x;
      return true;
    }

    /** Unsets the performance unless the evaluation data is stable. */
    method ResetPerformanceValue()
      modifies this
      ensures performance == if evaluationDataStable then old(performance) else NaN
      ensures overallFitness == old(overallFitness) && specie == old(specie)
      ensures evaluationDataStable == old(evaluationDataStable)
    {
      if !evaluationDataStable {
        performance := NaN;
      }
    }

    /** Unsets the overall and every per-objective fitness unless the evaluation data is
        stable. */
    method ResetFitnessValues()
      modifies this, fitnessValue
      ensures evaluationDataStable == old(evaluationDataStable)
      ensures overallFitness == if evaluationDataStable then old(overallFitness) else NaN
      ensures fitnessValue[..] == if evaluationDataStable then old(fitnessValue[..]) else seq(fitnessValue.Length, _ => NaN)
      ensures performance == old(performance) && specie == old(specie)
    {
      if !evaluationDataStable {
        overallFitness := NaN;
        for i := 0 to fitnessValue.Length
          invariant forall j :: 0 <= j < i ==> fitnessValue[j] == NaN
          modifies fitnessValue
        {
          fitnessValue[i] := NaN;
        }
        assert fitnessValue[..] == seq(fitnessValue.Length, _ => NaN);
      }
    }

    /** Unsets performance and fitness and clears every behaviour slot, unless the
        evaluation data is stable. */
    method ResetEvaluationData()
      modifies this, fitnessValue, behaviours
      ensures evaluationDataStable == old(evaluationDataStable)
      ensures performance == if evaluationDataStable then old(performance) else NaN
      ensures overallFitness == if evaluationDataStable then old(overallFitness) else NaN
      ensures fitnessValue[..] == if evaluationDataStable then old(fitnessValue[..]) else seq(fitnessValue.Length, _ => NaN)
      ensures behaviours != null ==>
        behaviours[..] == if evaluationDataStable then old(behaviours[..]) else seq(behaviours.Length, _ => None)
      ensures specie == old(specie)
    {
      if !evaluationDataStable {
        ResetPerformanceValue();
        ResetFitnessValues();
        if behaviours != null {
          for i := 0 to behaviours.Length
            invariant forall j :: 0 <= j < i ==> behaviours[j] == None
            modifies behaviours
          {
            behaviours[i] := None;
          }
          assert behaviours[..] == seq(behaviours.Length, _ => None);
        }
      }
    }

    /** Marks the evaluation data stable; nothing unsets the mark again. */
    method SetEvaluationDataStable()
      modifies this
      ensures evaluationDataStable
      ensures overallFitness == old(overallFitness) && performance == old(performance)
      ensures specie == old(specie)
    {
      evaluationDataStable := true;
    }

    /** Assigns the species; refused (and nothing changes) when one is already assigned. */
    method SetSpecie(s: Species) returns (ok: bool)
      modifies this
      ensures ok == old(specie).None?
      ensures specie == if ok then Some(s) else old(specie)
      ensures overallFitness == old(overallFitness) && performance == old(performance)
      ensures evaluationDataStable == old(evaluationDataStable)
    {
      if specie.Some? {
        return false;
      }
      specie := Some(s);
      return true;
    }

    /** Clears the species, so that a later SetSpecie succeeds. */
    method ResetSpecie()
      modifies this
      ensures specie == None
      ensures overallFitness == old(overallFitness) && performance == old(performance)
      ensures evaluationDataStable == old(evaluationDataStable)
    {
      specie := None;
    }

    /** Compares by id. */
    function CompareTo(other: Chromosome): (r: int)
      ensures r == CompareIds(id, other.id)
      ensures r == 0 <==> id == other.id
    {
      CompareIds(id, other.id)
    }

    /** Equal exactly when CompareTo answers 0, that is, when the ids are equal. */
    predicate Equals(other: Chromosome)
      ensures Equals(other) <==> CompareTo(other) == 0
      ensures Equals(other) <==> id == other.id
    {
      CompareTo(other) == 0
    }

    /** The first gene, in innovation-id order, equal to (of the same innovation id as)
        `alleleToMatch`, or nothing. The gene set being sorted, it is the only such gene. */
    method FindMatchingGene(alleleToMatch: Allele) returns (r: Option<Allele>)
      requires Valid() && alleles.Some?
      ensures r == FirstMatch(alleles.value, alleleToMatch.innovationId)
      ensures forall k :: 0 <= k < |alleles.value| && alleles.value[k].innovationId == alleleToMatch.innovationId ==>
        r == Some(alleles.value[k])
    {
      var s := alleles.value;
      forall k | 0 <= k < |s| && s[k].innovationId == alleleToMatch.innovationId
        ensures FirstMatch(s, alleleToMatch.innovationId) == Some(s[k])
      {
        FirstMatchUnique(s, alleleToMatch.innovationId, k);
      }
      var i := 0;
      while i < |s|
        invariant 0 <= i <= |s|
        invariant FirstMatch(s, alleleToMatch.innovationId) == FirstMatch(s[i..], alleleToMatch.innovationId)
      {
        if s[i].innovationId == alleleToMatch.innovationId {
          return Some(s[i]);
        }
        assert s[i..][1..] == s[i + 1..];
        i := i + 1;
      }
      return None;
    }

    /** The loop of the dominance check: the NaN scan over this chromosome's objectives,
        the special cases, then the objective comparison. */
    method DominatesChromosome(other: Chromosome) returns (b: bool)
      requires fitnessValue.Length <= other.fitnessValue.Length
      ensures b == Dominates(Fitness(fitnessValue[..], overallFitness), Fitness(other.fitnessValue[..], other.overallFitness))
    {
      ghost var a, o := fitnessValue[..], other.fitnessValue[..];
      var n := fitnessValue.Length;
      var hasThisNaN, hasOtherNaN := false, false;
      for i := 0 to n
        invariant hasThisNaN <==> HasNaN(a, i)
        invariant hasOtherNaN <==> HasNaN(o, i)
      {
        if fitnessValue[i].NaN? {
          hasThisNaN := true;
        }
        if other.fitnessValue[i].NaN? {
          hasOtherNaN := true;
        }
        HasNaNStep(a, i);
        HasNaNStep(o, i);
      }
      if n == 1 && hasThisNaN && hasOtherNaN {
        return Less(other.overallFitness, overallFitness);
      }
      if hasThisNaN {
        return false;
      }
      if !hasThisNaN && hasOtherNaN {
        return true;
      }
      var atLeastOneObjectiveBetter := false;
      for i := 0 to n
        invariant forall j :: 0 <= j < i ==> !Less(a[j], o[j])
        invariant atLeastOneObjectiveBetter <==> exists j :: 0 <= j < i && Less(o[j], a[j])
      {
        if Less(fitnessValue[i], other.fitnessValue[i]) {
          assert !ParetoBetter(a, o, n);
          return false;
        }
        if Less(other.fitnessValue[i], fitnessValue[i]) {
          atLeastOneObjectiveBetter := true;
        }
      }
      return atLeastOneObjectiveBetter;
    }
  }

  /** The public constructor with its null check: no chromosome without genetic material. */
  method Create(material: Option<seq<Allele>>, id: int, objectiveCount: nat, behaviourCount: int)
    returns (c: Option<Chromosome>)
    requires material.Some? ==> SortedById(material.value)
    ensures c.None? <==> material.None?
    ensures c.Some? ==> fresh(c.value) && c.value.Valid() && c.value.id == id && c.value.alleles == material
    ensures c.Some? ==> c.value.ObjectiveCount() == objectiveCount
    ensures c.Some? ==> c.value.NoveltyObjectiveCount() == if behaviourCount > 0 then behaviourCount else 0
  {
    if material.None? {
      return None;
    }
    var ch := new Chromosome(material.value, id, objectiveCount, behaviourCount);
    return Some(ch);
  }

  lemma HasNaNStep(values: seq<Num>, i: int)
    requires 0 <= i < |values|
    ensures HasNaN(values, i + 1) <==> HasNaN(values, i) || values[i].NaN?
  {
  }
}
