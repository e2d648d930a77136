/**
 * The h^2 heuristic: a table from every single fact and every pair of facts
 * on two variables to a cost, initialised from the evaluated state and then
 * lowered by passes over all operators until a pass changes nothing.
 */
module HTwo {
  import opened Facts
  import opened HTwoPair
  import opened HTwoTable

  /** A heuristic value: a finite estimate, or DEAD_END. */
  datatype Estimate = Finite(h: int) | DeadEnd

  class HTwoHeuristic {
    /** The subset size option; only the log message mentions it. */
    const m: int
    const task: Task
    const goals: seq<FactPair>

    var hmTable: map<Pair, int>
    var wasUpdated: bool
    /** Sorted preconditions, filled lazily per operator id. */
    var preconditionCache: map<int, seq<FactPair>>
    /** Partial tuples of the sorted effects, per operator id. */
    var partialEffectCache: map<int, seq<Pair>>

    ghost predicate Valid()
      reads this
    {
      && WellFormed(task)
      && goals == task.goals
      && TableValid()
      && CachesValid()
    }

    /** Every entry is a key of the task, between 0 and INT_MAX. */
    ghost predicate TableValid()
      reads this`hmTable
    {
      && (forall p :: p in hmTable ==> IsTableKey(task.domains, p))
      && Bounded(hmTable)
    }

    /** Every cached precondition is the sorted precondition, and every
        cached effect list is the partial tuples of the sorted effects. */
    ghost predicate CachesValid()
      reads this`preconditionCache, this`partialEffectCache
    {
      && (forall o :: o in preconditionCache ==>
            0 <= o < |task.ops| && preconditionCache[o] == SortFacts(task.ops[o].pre))
      && (forall o :: o in partialEffectCache ==>
            0 <= o < |task.ops| && partialEffectCache[o] == PartialTuples(SortFacts(task.ops[o].eff)))
    }

    /** The table holds every key and every operator's partial effects are
        cached: what update_hm_table relies on. */
    ghost predicate Ready()
      reads this
    {
      && Valid()
      && TableFull()
      && (forall o :: 0 <= o < |task.ops| ==> o in partialEffectCache)
    }

    ghost predicate TableFull()
      reads this`hmTable
    {
      forall p :: IsTableKey(task.domains, p) ==> p in hmTable
    }

    constructor (m: int, task: Task)
      requires WellFormed(task)
      ensures Valid()
      ensures this.m == m && this.task == task && goals == task.goals
      ensures hmTable == map[] && preconditionCache == map[] && partialEffectCache == map[]
    {
      this.m := m;
      this.task := task;
      goals := task.goals;
      hmTable := map[];
      wasUpdated := false;
      preconditionCache := map[];
      partialEffectCache := map[];
    }

    /** compute_heuristic: 0 on a goal state; otherwise the table is rebuilt
        for the state and lowered to its fixpoint, and the goals are
        evaluated, INT_MAX meaning DEAD_END. */
    method ComputeHeuristic(state: seq<int>) returns (h: Estimate)
      requires Valid()
      modifies this`hmTable, this`wasUpdated, this`preconditionCache, this`partialEffectCache
      ensures Valid()
      ensures IsGoalState(task, state) ==> h == Finite(0)
      ensures !IsGoalState(task, state) ==>
        && Ready()
        && Fixpoint(hmTable, task)
        && (forall p :: p in hmTable ==> hmTable[p] <= InitialEntry(p, StateFacts(state)))
        && (forall init :: IsInitialTable(task.domains, StateFacts(state), init) ==> GreatestFixpointBelow(task, hmTable, init))
        && h == (if EvalSpec(hmTable, goals) == INF then DeadEnd else Finite(EvalSpec(hmTable, goals)))
    {
      if IsGoalState(task, state) {
        return Finite(0);
      }
      var stateFacts := StateFacts(state);
      InitHmTable(stateFacts);
      ghost var initial := hmTable;
      InitPartialEffects();
      UpdateHmTable();
      forall init | IsInitialTable(task.domains, stateFacts, init) ensures GreatestFixpointBelow(task, hmTable, init) {
        assert init == initial;
      }
      PartialTuplesAreKeys(task.domains, goals);
      var value := Eval(goals);
      if value == INF {
        return DeadEnd;
      }
      return Finite(value);
    }

    /** The entry of p is present and is what init_hm_table gives it. */
    ghost predicate Initialized(stateFacts: seq<FactPair>, p: Pair)
      reads this
    {
      p in hmTable && hmTable[p] == InitialEntry(p, stateFacts)
    }

    /** init_hm_table: every key gets 0 if the state contains its facts and
        INT_MAX otherwise. */
    method InitHmTable(stateFacts: seq<FactPair>)
      requires Valid()
      modifies this`hmTable
      ensures Valid()
      ensures IsInitialTable(task.domains, stateFacts, hmTable)
    {
      var numVariables := |task.domains|;
      for i := 0 to numVariables
        invariant Valid()
        invariant forall p :: IsTableKey(task.domains, p) && p.first.variable < i ==> Initialized(stateFacts, p)
      {
        var domain1Size := task.domains[i];
        for j := 0 to domain1Size
          invariant Valid()
          invariant forall p :: IsTableKey(task.domains, p) && (p.first.variable < i || (p.first.variable == i && p.first.value < j)) ==>
            Initialized(stateFacts, p)
        {
          InitEntriesWith(FactPair(i, j), stateFacts);
        }
      }
    }

    /** The body of init_hm_table's loop over the first fact f: the singleton
        key of f and every pair key starting with f. */
    method InitEntriesWith(f: FactPair, stateFacts: seq<FactPair>)
      requires Valid() && IsFact(task.domains, f)
      modifies this`hmTable
      ensures Valid()
      ensures forall p :: p in old(hmTable) && p.first != f ==> p in hmTable && hmTable[p] == old(hmTable)[p]
      ensures forall p :: IsTableKey(task.domains, p) && p.first == f ==> Initialized(stateFacts, p)
    {
      var numVariables := |task.domains|;
      var singlePair := Pair(f, NoFact);
      var found := CheckInInitialState(singlePair, stateFacts);
      hmTable := hmTable[singlePair := if found then 0 else INF];
      for k := f.variable + 1 to numVariables
        invariant Valid()
        invariant forall p :: p in old(hmTable) && p.first != f ==> p in hmTable && hmTable[p] == old(hmTable)[p]
        invariant Initialized(stateFacts, singlePair)
        invariant forall p :: IsTableKey(task.domains, p) && p.first == f && p.second.variable != -1 && p.second.variable < k ==>
          Initialized(stateFacts, p)
      {
        InitPairsWith(f, k, stateFacts);
      }
    }

    /** The innermost loop of init_hm_table: the keys (f, k = l) for every
        value l of variable k. */
    method InitPairsWith(f: FactPair, k: int, stateFacts: seq<FactPair>)
      requires Valid() && IsFact(task.domains, f) && f.variable < k < |task.domains|
      modifies this`hmTable
      ensures Valid()
      ensures forall p :: p in old(hmTable) && (p.first != f || p.second.variable != k) ==>
        p in hmTable && hmTable[p] == old(hmTable)[p]
      ensures forall l :: 0 <= l < task.domains[k] ==> Initialized(stateFacts, Pair(f, FactPair(k, l)))
    {
      var domain2Size := task.domains[k];
      for l := 0 to domain2Size
        invariant Valid()
        invariant forall p :: p in old(hmTable) && (p.first != f || p.second.variable != k) ==>
          p in hmTable && hmTable[p] == old(hmTable)[p]
        invariant forall l' :: 0 <= l' < l ==> Initialized(stateFacts, Pair(f, FactPair(k, l')))
      {
        var pair := Pair(f, FactPair(k, l));
        var foundPair := CheckInInitialState(pair, stateFacts);
        hmTable := hmTable[pair := if foundPair then 0 else INF];
      }
    }

    /** init_partial_effects: caches the partial tuples of every operator's
        sorted effects. */
    method InitPartialEffects()
      requires Valid()
      modifies this`partialEffectCache
      ensures Valid()
      ensures forall o :: 0 <= o < |task.ops| ==> o in partialEffectCache
    {
      for opId := 0 to |task.ops|
        invariant CachesValid()
        invariant forall o :: 0 <= o < opId ==> o in partialEffectCache
      {
        var eff := GetOperatorEff(opId);
        var partialEffs := GenerateAllPartialTuples(eff, []);
        assert partialEffs == PartialTuples(SortFacts(task.ops[opId].eff));
        partialEffectCache := partialEffectCache[opId := partialEffs];
      }
    }

    /** update_hm_table: passes over all operators until one lowers nothing.
        Entries never rise, and on exit the table is a fixpoint of the update
        rules. */
    method UpdateHmTable()
      requires Ready()
      modifies this`hmTable, this`wasUpdated, this`preconditionCache
      ensures Ready() && partialEffectCache == old(partialEffectCache)
      ensures NoHigher(hmTable, old(hmTable))
      ensures Fixpoint(hmTable, task)
      ensures GreatestFixpointBelow(task, hmTable, old(hmTable))
      ensures !wasUpdated
    {
      AboveFixpointsStart(task, hmTable);
      // The body of the do-while runs first: was_updated is cleared on entry.
      wasUpdated := true;
      while wasUpdated
        invariant Ready() && partialEffectCache == old(partialEffectCache)
        invariant NoHigher(hmTable, old(hmTable))
        invariant AboveFixpoints(task, hmTable, old(hmTable))
        invariant !wasUpdated ==> Fixpoint(hmTable, task)
        decreases SumOver(hmTable, hmTable.Keys) + (if wasUpdated then 1 else 0)
      {
        wasUpdated := false;
        ghost var passStart := hmTable;
        SumOverNonNegative(passStart, passStart.Keys);
        for opId := 0 to |task.ops|
          invariant Ready() && partialEffectCache == old(partialEffectCache)
          invariant LowersOnly(hmTable, wasUpdated, passStart, false)
          invariant AboveFixpoints(task, hmTable, old(hmTable))
          invariant !wasUpdated ==> forall o :: 0 <= o < opId ==> OperatorSettled(passStart, task, o)
        {
          ghost var beforeOp, updatedBeforeOp := hmTable, wasUpdated;
          UpdateForOperator(opId, old(hmTable));
          LowersOnlyTrans(passStart, false, beforeOp, updatedBeforeOp, hmTable, wasUpdated);
          if !wasUpdated {
            SettledOpsPrefix(passStart, task, opId);
          }
        }
        NoHigherTrans(hmTable, passStart, old(hmTable));
        if wasUpdated {
          LoweredSumDrops(hmTable, passStart);
        }
      }
    }

    /** One iteration of update_hm_table's loop over operators: if the
        precondition is reachable at c1, every partial effect is lowered to
        c1 + cost and every singleton effect is extended. */
    method UpdateForOperator(opId: int, ghost ceiling: map<Pair, int>)
      requires Ready() && 0 <= opId < |task.ops|
      requires AboveFixpoints(task, hmTable, ceiling)
      modifies this`hmTable, this`wasUpdated, this`preconditionCache
      ensures Ready() && partialEffectCache == old(partialEffectCache)
      ensures LowersOnly(hmTable, wasUpdated, old(hmTable), old(wasUpdated))
      ensures AboveFixpoints(task, hmTable, ceiling)
      ensures var c1 := EvalSpec(old(hmTable), SortFacts(task.ops[opId].pre));
        c1 != INF ==> forall e :: e in PartialTuples(SortFacts(task.ops[opId].eff)) ==>
          Entry(hmTable, e) <= c1 + task.ops[opId].cost
      ensures !wasUpdated ==> OperatorSettled(hmTable, task, opId)
    {
      ghost var start := hmTable;
      var op := task.ops[opId];
      var pre := GetOperatorPre(opId);
      SortedFactsValid(task.domains, op.pre);
      PartialTuplesAreKeys(task.domains, pre);
      var c1 := Eval(pre);
      if c1 == INF {
        return;
      }
      EvalAboveFixpoints(task, hmTable, ceiling, opId, c1);
      SortedFactsValid(task.domains, op.eff);
      PartialTuplesAreKeys(task.domains, SortFacts(op.eff));
      var partialEffs := partialEffectCache[opId];
      for n := 0 to |partialEffs|
        invariant Ready() && partialEffectCache == old(partialEffectCache)
        invariant LowersOnly(hmTable, wasUpdated, start, old(wasUpdated))
        invariant AboveFixpoints(task, hmTable, ceiling)
        invariant forall j :: 0 <= j < n ==> Entry(hmTable, partialEffs[j]) <= c1 + op.cost
        invariant !wasUpdated ==> forall j :: 0 <= j < n ==> EffectSettled(start, task, opId, c1, partialEffs[j])
      {
        ApplyPartialEffectNext(opId, c1, partialEffs, n, start, old(wasUpdated), ceiling);
      }
    }

    /** One round of the loop over the partial effects effs of opId: effs[n]
        joins the partial effects done since the table was start. */
    method ApplyPartialEffectNext(opId: int, c1: int, effs: seq<Pair>, n: nat,
                                  ghost start: map<Pair, int>, ghost startUpdated: bool, ghost ceiling: map<Pair, int>)
      requires Ready() && 0 <= opId < |task.ops| && 0 <= c1 < INF
      requires effs == PartialTuples(SortFacts(task.ops[opId].eff)) && n < |effs| && effs[n] in hmTable
      requires LowersOnly(hmTable, wasUpdated, start, startUpdated)
      requires AboveFixpoints(task, hmTable, ceiling) && EvalAbove(task, ceiling, opId, c1)
      requires forall j :: 0 <= j < n ==> Entry(hmTable, effs[j]) <= c1 + task.ops[opId].cost
      requires !wasUpdated ==> forall j :: 0 <= j < n ==> EffectSettled(start, task, opId, c1, effs[j])
      modifies this`hmTable, this`wasUpdated, this`preconditionCache
      ensures Ready() && partialEffectCache == old(partialEffectCache)
      ensures LowersOnly(hmTable, wasUpdated, start, startUpdated)
      ensures AboveFixpoints(task, hmTable, ceiling)
      ensures forall j :: 0 <= j < n + 1 ==> Entry(hmTable, effs[j]) <= c1 + task.ops[opId].cost
      ensures !wasUpdated ==> forall j :: 0 <= j < n + 1 ==> EffectSettled(start, task, opId, c1, effs[j])
    {
      ApplyPartialEffect(opId, c1, effs[n], ceiling);
      LowersOnlyTrans(start, startUpdated, old(hmTable), old(wasUpdated), hmTable, wasUpdated);
      if !wasUpdated {
        SettledPrefix(start, task, opId, c1, effs, n);
      }
    }

    /** One iteration of update_hm_table's loop over the partial effects of
        an operator whose precondition has value c1. */
    method ApplyPartialEffect(opId: int, c1: int, partialEff: Pair, ghost ceiling: map<Pair, int>)
      requires Ready() && 0 <= opId < |task.ops| && 0 <= c1 < INF
      requires partialEff in PartialTuples(SortFacts(task.ops[opId].eff)) && partialEff in hmTable
      requires AboveFixpoints(task, hmTable, ceiling) && EvalAbove(task, ceiling, opId, c1)
      modifies this`hmTable, this`wasUpdated, this`preconditionCache
      ensures Ready() && partialEffectCache == old(partialEffectCache)
      ensures LowersOnly(hmTable, wasUpdated, old(hmTable), old(wasUpdated))
      ensures AboveFixpoints(task, hmTable, ceiling)
      ensures var lowered := LowerTo(old(hmTable), partialEff, c1 + task.ops[opId].cost);
        && partialEff in hmTable && hmTable[partialEff] == lowered[partialEff]
        && (partialEff.second.variable != -1 ==> hmTable == lowered)
        && (partialEff.second.variable == -1 ==>
              && ExtensionOnly(hmTable, lowered, task, opId, partialEff.first)
              && ExtendedFromAll(hmTable, lowered, task, opId, partialEff.first, c1, lowered.Keys))
      ensures !wasUpdated ==> EffectSettled(hmTable, task, opId, c1, partialEff)
    {
      var op := task.ops[opId];
      assert WellFormedOperator(task.domains, op);
      LowersOnlyUpdate(hmTable, wasUpdated, hmTable, wasUpdated, partialEff, c1 + op.cost);
      ghost var before := hmTable;
      var _ := UpdateHmEntry(partialEff, c1 + op.cost);
      EffectKeepsAbove(task, before, hmTable, ceiling, opId, c1, partialEff);
      if partialEff.second.variable == -1 {
        ghost var lowered, updatedBefore := hmTable, wasUpdated;
        ExtendTuple(partialEff, opId, c1, ceiling);
        LowersOnlyTrans(old(hmTable), old(wasUpdated), lowered, updatedBefore, hmTable, wasUpdated);
        SingletonKept(hmTable, lowered, task, opId, partialEff);
      }
    }

    /** extend_tuple: for every real pair containing p.first whose partner
        fact is not contradicted by the operator's effects, lowers the pair to
        the extended precondition value plus the operator's cost. Called for
        a singleton partial effect p of the operator. */
    method ExtendTuple(p: Pair, opId: int, eval: int, ghost ceiling: map<Pair, int>)
      requires Ready() && 0 <= opId < |task.ops|
      requires 0 <= eval <= INF
      requires p in PartialTuples(SortFacts(task.ops[opId].eff)) && p.second.variable == -1
      requires AboveFixpoints(task, hmTable, ceiling) && EvalAbove(task, ceiling, opId, eval)
      modifies this`hmTable, this`wasUpdated, this`preconditionCache
      ensures Ready() && partialEffectCache == old(partialEffectCache)
      ensures LowersOnly(hmTable, wasUpdated, old(hmTable), old(wasUpdated))
      ensures ExtensionOnly(hmTable, old(hmTable), task, opId, p.first)
      ensures ExtendedFromAll(hmTable, old(hmTable), task, opId, p.first, eval, old(hmTable).Keys)
      ensures AboveFixpoints(task, hmTable, ceiling)
      ensures !wasUpdated ==> ExtensionSettled(hmTable, task, opId, p.first, eval)
    {
      var pre := GetOperatorPre(opId);
      ghost var start := hmTable;
      var remaining := hmTable.Keys;
      while remaining != {}
        invariant Ready() && partialEffectCache == old(partialEffectCache)
        invariant remaining <= start.Keys
        invariant LowersOnly(hmTable, wasUpdated, start, old(wasUpdated))
        invariant ExtensionOnly(hmTable, start, task, opId, p.first)
        invariant ExtendedFromAll(hmTable, start, task, opId, p.first, eval, start.Keys - remaining)
        invariant AboveFixpoints(task, hmTable, ceiling)
        invariant !wasUpdated ==> forall q :: q in start && q !in remaining ==>
          ExtensionSettledAt(start, task, opId, p.first, eval, q)
        decreases remaining
      {
        // The unordered_map's iteration order is unspecified: any key may come next.
        var hmPair :| hmPair in remaining;
        ExtendTupleNext(p, hmPair, opId, eval, pre, start, old(wasUpdated), remaining, ceiling);
        remaining := remaining - {hmPair};
      }
      assert start.Keys - remaining == start.Keys;
    }

    /** One round of extend_tuple's loop: the key hmPair joins the visited
        keys of the pass that started from the table start. */
    method ExtendTupleNext(p: Pair, hmPair: Pair, opId: int, eval: int, pre: seq<FactPair>,
                           ghost start: map<Pair, int>, ghost startUpdated: bool, ghost remaining: set<Pair>,
                           ghost ceiling: map<Pair, int>)
      requires Ready() && 0 <= opId < |task.ops|
      requires 0 <= eval <= INF && pre == SortFacts(task.ops[opId].pre)
      requires p in PartialTuples(SortFacts(task.ops[opId].eff)) && p.second.variable == -1
      requires hmPair in remaining && remaining <= start.Keys && Bounded(start)
      requires LowersOnly(hmTable, wasUpdated, start, startUpdated)
      requires ExtensionOnly(hmTable, start, task, opId, p.first)
      requires ExtendedFromAll(hmTable, start, task, opId, p.first, eval, start.Keys - remaining)
      requires AboveFixpoints(task, hmTable, ceiling) && EvalAbove(task, ceiling, opId, eval)
      requires !wasUpdated ==> forall q :: q in start && q !in remaining ==>
        ExtensionSettledAt(start, task, opId, p.first, eval, q)
      modifies this`hmTable, this`wasUpdated
      ensures Ready()
      ensures hmTable == ExtendAt(old(hmTable), task, opId, p.first, eval, hmPair)
      ensures LowersOnly(hmTable, wasUpdated, start, startUpdated)
      ensures ExtensionOnly(hmTable, start, task, opId, p.first)
      ensures ExtendedFromAll(hmTable, start, task, opId, p.first, eval, start.Keys - (remaining - {hmPair}))
      ensures AboveFixpoints(task, hmTable, ceiling)
      ensures !wasUpdated ==> forall q :: q in start && q !in remaining - {hmPair} ==>
        ExtensionSettledAt(start, task, opId, p.first, eval, q)
    {
      assert WellFormedOperator(task.domains, task.ops[opId]);
      ghost var before, updatedBefore := hmTable, wasUpdated;
      ExtendTupleAt(p, hmPair, opId, eval, pre);
      ExtendAtEffect(before, updatedBefore, hmTable, wasUpdated, start, startUpdated, task, opId, p.first, eval, hmPair);
      ExtensionKeepsAbove(task, before, hmTable, ceiling, opId, eval, p, hmPair);
      ExtendedFromStep(before, hmTable, start, task, opId, p.first, eval, hmPair, remaining);
      ExtensionOnlyTrans(start, before, hmTable, task, opId, p.first);
    }

    /** One iteration of extend_tuple's loop, for the key hmPair. */
    method ExtendTupleAt(p: Pair, hmPair: Pair, opId: int, eval: int, pre: seq<FactPair>)
      requires Ready() && 0 <= opId < |task.ops| && hmPair in hmTable
      requires 0 <= eval <= INF && pre == SortFacts(task.ops[opId].pre)
      modifies this`hmTable, this`wasUpdated
      ensures hmTable == ExtendAt(old(hmTable), task, opId, p.first, eval, hmPair)
      ensures wasUpdated == (old(wasUpdated) || hmTable[hmPair] < old(hmTable)[hmPair])
    {
      // The three `continue`s of the source skip the rest of this body.
      var fact := NoFact;
      var shares := true;
      if p.first == hmPair.first {
        fact := hmPair.second;
      } else if p.first == hmPair.second {
        fact := hmPair.first;
      } else {
        shares := false;
      }
      assert shares ==> fact == Partner(hmPair, p.first);
      if shares && !ContradictEffectOf(opId, fact) && hmPair.second.variable != -1 {
        ExtendWith(p.first, hmPair, opId, eval, pre);
      }
    }

    /** The body of extend_tuple for a key q that shares the fact f and may
        take f's partner in q as an effect: q drops to c2 + cost when
        c2 = hm_table_evaluation(pre, partner, eval) is finite. */
    method ExtendWith(f: FactPair, q: Pair, opId: int, eval: int, pre: seq<FactPair>)
      requires Ready() && 0 <= opId < |task.ops| && q in hmTable
      requires 0 <= eval <= INF && pre == SortFacts(task.ops[opId].pre)
      requires Extendable(task, opId, f, q)
      modifies this`hmTable, this`wasUpdated
      ensures hmTable == ExtendAt(old(hmTable), task, opId, f, eval, q)
      ensures wasUpdated == (old(wasUpdated) || hmTable[q] < old(hmTable)[q])
    {
      var fact := Partner(q, f);
      SortedFactsValid(task.domains, task.ops[opId].pre);
      ExtensionKeysPresent(task.domains, hmTable, pre, fact);
      var c2 := HmTableEvaluation(pre, fact, eval);
      if c2 != INF {
        var _ := UpdateHmEntry(q, c2 + task.ops[opId].cost);
      }
    }

    /** eval: the largest entry over the partial tuples of t, returning
        INT_MAX as soon as an entry is INT_MAX. */
    method Eval(t: seq<FactPair>) returns (r: int)
      requires Valid()
      requires forall p :: p in PartialTuples(t) ==> p in hmTable
      ensures r == EvalSpec(hmTable, t)
      ensures 0 <= r <= INF
    {
      var partial := GenerateAllPartialTuples(t, []);
      var max := 0;
      for n := 0 to |partial|
        invariant max == MaxEntry(hmTable, partial[..n])
        invariant 0 <= max < INF
      {
        assert partial[..n + 1][..n] == partial[..n];
        var h := hmTable[partial[n]];
        if h > max {
          if h == INF {
            MaxEntryIsMaximum(hmTable, partial);
            return INF;
          }
          max := h;
        }
      }
      assert partial[..|partial|] == partial;
      return max;
    }

    /** hm_table_evaluation(t, fact, e): the value of t extended by fact,
        given e, the value of t. */
    method HmTableEvaluation(t: seq<FactPair>, fact: FactPair, eval: int) returns (r: int)
      requires Bounded(hmTable) && 0 <= eval <= INF
      requires Pair(fact, NoFact) in hmTable
      requires forall i :: 0 <= i < |t| && t[i].variable != fact.variable ==> OrderedKey(t[i], fact) in hmTable
      ensures r == ExtendEvalSpec(hmTable, t, fact, eval)
      ensures eval <= r <= INF
    {
      var factEval := hmTable[Pair(fact, NoFact)];
      var max := if eval > factEval then eval else factEval;
      for n := 0 to |t|
        invariant !ConflictsWith(t[..n], fact)
        invariant max == Max(Max(eval, factEval), MaxEntry(hmTable, OtherVarKeys(t[..n], fact)))
        invariant eval <= max <= INF
      {
        ExtendStep(t, fact, n);
        var fact0 := t[n];
        if fact0.variable == fact.variable {
          if fact0.value != fact.value {
            ExtendEvalCharacterized(hmTable, t, fact, eval);
            return INF;
          }
          continue;
        }
        var key := if fact0.variable < fact.variable then Pair(fact0, fact) else Pair(fact, fact0);
        MaxEntryAppend(hmTable, OtherVarKeys(t[..n], fact), key);
        var h := hmTable[key];
        if h > max {
          if h == INF {
            ExtendEvalCharacterized(hmTable, t, fact, eval);
            return INF;
          }
          max := h;
        }
      }
      assert t[..|t|] == t;
      return max;
    }

    /** update_hm_entry: the entry becomes min(old, val); was_updated is set
        exactly when it strictly decreases; nothing else changes. */
    method UpdateHmEntry(p: Pair, val: int) returns (r: int)
      requires Valid() && p in hmTable
      modifies this`hmTable, this`wasUpdated
      ensures 0 <= val ==> Valid()
      ensures old(Ready()) && 0 <= val ==> Ready()
      ensures old(TableFull()) ==> TableFull()
      ensures hmTable == LowerTo(old(hmTable), p, val)
      ensures wasUpdated == (old(wasUpdated) || old(hmTable)[p] > val)
      ensures r == val
    {
      if hmTable[p] > val {
        hmTable := hmTable[p := val];
        wasUpdated := true;
      }
      return val;
    }

    /** check_in_initial_state: scans the facts once, marking the first fact
        found and then the second. */
    method CheckInInitialState(hmEntry: Pair, stateFacts: seq<FactPair>) returns (r: bool)
      ensures r == InState(hmEntry, stateFacts)
    {
      var foundFirst := false;
      var foundSecond := hmEntry.second.variable == -1;
      for n := 0 to |stateFacts|
        invariant foundFirst == (hmEntry.first in stateFacts[..n])
        invariant foundSecond == (|| hmEntry.second.variable == -1
                                  || (if hmEntry.second == hmEntry.first
                                      then multiset(stateFacts[..n])[hmEntry.first] >= 2
                                      else hmEntry.second in stateFacts[..n]))
        invariant !(foundFirst && foundSecond)
      {
        var fact := stateFacts[n];
        assert stateFacts[..n + 1] == stateFacts[..n] + [fact];
        if !foundFirst && fact == hmEntry.first {
          foundFirst := true;
        } else if !foundSecond && fact == hmEntry.second {
          foundSecond := true;
        }
        if foundFirst && foundSecond {
          assert stateFacts == stateFacts[..n + 1] + stateFacts[n + 1..];
          return true;
        }
      }
      assert stateFacts[..|stateFacts|] == stateFacts;
      return false;
    }

    /** get_operator_pre: the sorted preconditions, cached per operator. */
    method GetOperatorPre(opId: int) returns (preconditions: seq<FactPair>)
      requires Valid() && 0 <= opId < |task.ops|
      modifies this`preconditionCache
      ensures Valid()
      ensures preconditions == SortFacts(task.ops[opId].pre)
      ensures preconditionCache.Keys == old(preconditionCache).Keys + {opId}
    {
      if opId in preconditionCache {
        return preconditionCache[opId];
      }
      preconditions := SortFacts(task.ops[opId].pre);
      preconditionCache := preconditionCache[opId := preconditions];
    }

    /** get_operator_eff: the effect facts, sorted. */
    method GetOperatorEff(opId: int) returns (effects: seq<FactPair>)
      requires 0 <= opId < |task.ops|
      ensures effects == SortFacts(task.ops[opId].eff)
    {
      var eff := task.ops[opId].eff;
      effects := [];
      for n := 0 to |eff|
        invariant effects == eff[..n]
      {
        effects := effects + [eff[n]];
      }
      assert eff[..|eff|] == eff;
      effects := SortFacts(effects);
    }

    /** contradict_effect_of: some effect of the operator sets fact's
        variable to another value. */
    function ContradictEffectOf(opId: int, fact: FactPair): (r: bool)
      requires 0 <= opId < |task.ops|
      ensures r <==> (exists i :: 0 <= i < |task.ops[opId].eff| &&
                        task.ops[opId].eff[i].variable == fact.variable && task.ops[opId].eff[i].value != fact.value)
    {
      ConflictsWith(task.ops[opId].eff, fact)
    }

    /** generate_all_partial_tuples: appends the n(n+1)/2 partial tuples of
        baseTuple to res, leaving its earlier contents as they were. */
    method GenerateAllPartialTuples(baseTuple: seq<FactPair>, res0: seq<Pair>) returns (res: seq<Pair>)
      ensures res == res0 + PartialTuples(baseTuple)
    {
      res := res0;
      for i := 0 to |baseTuple|
        invariant res == res0 + Rows(baseTuple, i)
      {
        ghost var before := res;
        res := res + [Pair(baseTuple[i], NoFact)];
        for j := i + 1 to |baseTuple|
          invariant res == before + [Pair(baseTuple[i], NoFact)]
            + seq(j - i - 1, k requires 0 <= k < j - i - 1 => Pair(baseTuple[i], baseTuple[i + 1 + k]))
        {
          res := res + [Pair(baseTuple[i], baseTuple[j])];
        }
      }
    }
  }
}
