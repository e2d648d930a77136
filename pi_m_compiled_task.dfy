/**
 * The Pi^m compiled task for m = 2: a task whose variables are the meta
 * atoms of a parent task, each with the values 0 and 1, whose initial state
 * and goal are derived from the parent's, and whose operators are the
 * copies of each parent operator for S = {} and for each compatible extra
 * atom S = {s}. The constructor fills the fields in four steps; the getters
 * answer the task interface from them.
 */
module PiM {
  import opened Facts
  import opened PiMSpec

  class PiMCompiledTask {
    /** The parent task. */
    const parent: Task

    /** The preconditions and effects of each parent operator. */
    var oldPre: seq<seq<FactPair>>
    var oldEff: seq<seq<FactPair>>
    /** The number of each meta atom. */
    var metaAtomMap: map<MetaAtom, int>
    /** {"not " + name, name} for each meta atom. */
    var factNames: seq<seq<string>>
    var domainSize: seq<int>
    var initialStateValues: seq<int>
    var goals: seq<FactPair>
    var metaOperators: seq<MetaOperator>

    ghost predicate Valid()
      reads this
    {
      && WellFormed(parent)
      && OpsStored()
      && AtomsNumbered()
      && StatesSet()
      && OpsBuilt()
    }

    /** The parent's operators, copied. */
    ghost predicate OpsStored()
      reads this`oldPre, this`oldEff
    {
      oldPre == PreconditionsOf(parent.ops) && oldEff == EffectsOf(parent.ops)
    }

    /** Meta atom k of the enumeration has number k and names fact_names[k]. */
    ghost predicate AtomsNumbered()
      reads this`metaAtomMap, this`factNames
    {
      NumberedAs(MetaAtoms(parent.domains))
    }

    /** Every compiled variable is binary; the initial state is the compiled
        parent initial state; the goal lists the goal atoms. */
    ghost predicate StatesSet()
      reads this`domainSize, this`initialStateValues, this`goals
    {
      && domainSize == seq(|MetaAtoms(parent.domains)|, k => 2)
      && initialStateValues == CompiledState(MetaAtoms(parent.domains), parent.init)
      && GoalsListed(goals, MetaAtoms(parent.domains), GoalSet(parent.goals))
    }

    /** meta_atom_map numbers the atoms of s in order and fact_names names
        them. */
    ghost predicate NumberedAs(s: seq<MetaAtom>)
      reads this`metaAtomMap, this`factNames
    {
      metaAtomMap == IndexMap(s) && factNames == NamesOf(s)
    }

    ghost predicate OpsBuilt()
      reads this`metaOperators, this`metaAtomMap
    {
      metaOperators == CompiledOpsUpTo(metaAtomMap, parent.domains, parent.ops, |parent.ops|)
    }

    constructor (parent: Task)
      requires WellFormed(parent)
      ensures Valid() && this.parent == parent
    {
      this.parent := parent;
      oldPre := [];
      oldEff := [];
      metaAtomMap := map[];
      factNames := [];
      domainSize := [];
      initialStateValues := [];
      goals := [];
      metaOperators := [];
      new;
      StoreOldOps();
      InitMetaAtomMap();
      SetupInitAndGoalStates();
      SetupNewOps();
    }

    /** store_old_ops: appends the preconditions and the effects of every
        parent operator, in order. */
    method StoreOldOps()
      modifies this`oldPre, this`oldEff
      ensures oldPre == old(oldPre) + PreconditionsOf(parent.ops)
      ensures oldEff == old(oldEff) + EffectsOf(parent.ops)
    {
      var numOp := |parent.ops|;
      var opId := 0;
      while opId < numOp
        invariant 0 <= opId <= numOp
        invariant oldPre == old(oldPre) + seq(opId, o requires 0 <= o < opId => parent.ops[o].pre)
        invariant oldEff == old(oldEff) + seq(opId, o requires 0 <= o < opId => parent.ops[o].eff)
      {
        var op := parent.ops[opId];
        var oldPreOp := [];
        var preId := 0;
        while preId < |op.pre|
          invariant 0 <= preId <= |op.pre|
          invariant oldPreOp == op.pre[..preId]
        {
          oldPreOp := oldPreOp + [op.pre[preId]];
          preId := preId + 1;
        }
        assert op.pre[..preId] == op.pre;
        oldPre := oldPre + [oldPreOp];
        var oldEffOp := [];
        var effId := 0;
        while effId < |op.eff|
          invariant 0 <= effId <= |op.eff|
          invariant oldEffOp == op.eff[..effId]
        {
          oldEffOp := oldEffOp + [op.eff[effId]];
          effId := effId + 1;
        }
        assert op.eff[..effId] == op.eff;
        oldEff := oldEff + [oldEffOp];
        ghost var pres := seq(opId, o requires 0 <= o < opId => parent.ops[o].pre);
        ghost var effs := seq(opId, o requires 0 <= o < opId => parent.ops[o].eff);
        assert seq(opId + 1, o requires 0 <= o < opId + 1 => parent.ops[o].pre) == pres + [op.pre];
        assert seq(opId + 1, o requires 0 <= o < opId + 1 => parent.ops[o].eff) == effs + [op.eff];
        AppendAssoc(old(oldPre), pres, [op.pre]);
        AppendAssoc(old(oldEff), effs, [op.eff]);
        opId := opId + 1;
      }
    }

    /** init_meta_atom_map: numbers the empty atom 0 and then, for each fact
        (var, val) in order, the atoms (var=val, var=value) for value >= val
        and (var=val, w=value) for every later variable w, and names each. */
    method InitMetaAtomMap()
      requires WellFormed(parent)
      modifies this`metaAtomMap, this`factNames
      ensures AtomsNumbered()
    {
      WellFormedDomains(parent);
      AtomsBeforeVarEnds(parent.domains);
      metaAtomMap := map[EmptyAtom := 0];
      factNames := [["not v_\U{2205}", "v_\U{2205}"]];
      IndexMapAppend([], EmptyAtom);
      assert [] + [EmptyAtom] == [EmptyAtom];
      assert "not " + "v_\U{2205}" == "not v_\U{2205}";
      var numVar := |parent.domains|;
      var index := 1;
      var v := 0;
      while v < numVar
        invariant 0 <= v <= numVar
        invariant NumberedAs(AtomsBeforeVar(parent.domains, v))
        invariant index == |AtomsBeforeVar(parent.domains, v)|
      {
        index := AddRowsOf(v, index);
        v := v + 1;
      }
    }

    /** The rows of the facts of variable v: the loop over val in
        init_meta_atom_map. */
    method AddRowsOf(v: int, index0: int) returns (index: int)
      requires NonNegative(parent.domains) && 0 <= v < |parent.domains|
      requires NumberedAs(AtomsBeforeVar(parent.domains, v)) && index0 == |AtomsBeforeVar(parent.domains, v)|
      modifies this`metaAtomMap, this`factNames
      ensures NumberedAs(AtomsBeforeVar(parent.domains, v + 1)) && index == |AtomsBeforeVar(parent.domains, v + 1)|
    {
      AtomsBeforeFactEnds(parent.domains, v);
      index := index0;
      var val := 0;
      while val < parent.domains[v]
        invariant 0 <= val <= parent.domains[v]
        invariant NumberedAs(AtomsBeforeFact(parent.domains, v, val))
        invariant index == |AtomsBeforeFact(parent.domains, v, val)|
      {
        index := AddRow(v, val, index);
        val := val + 1;
      }
    }

    /** The atoms of fact (v, a) and of every fact after it: the body of the
        loop over val in init_meta_atom_map. */
    method AddRow(v: int, a: int, index0: int) returns (index: int)
      requires NonNegative(parent.domains) && 0 <= v < |parent.domains| && 0 <= a < parent.domains[v]
      requires NumberedAs(AtomsBeforeFact(parent.domains, v, a)) && index0 == |AtomsBeforeFact(parent.domains, v, a)|
      modifies this`metaAtomMap, this`factNames
      ensures NumberedAs(AtomsBeforeFact(parent.domains, v, a + 1)) && index == |AtomsBeforeFact(parent.domains, v, a + 1)|
    {
      ghost var done := AtomsBeforeFact(parent.domains, v, a);
      FactRowSplit(parent.domains, v, a);
      index := AddPairs(v, a, v, a, index0, done);
      index := AddLaterPairs(v, a, index, done + WithFirst(FactPair(v, a), ValuesOf(v, parent.domains[v])[a..]));
    }

    /** The atoms (v=a, w=value) for every variable w after v: the loop over
        later variables in init_meta_atom_map. */
    method AddLaterPairs(v: int, a: int, index0: int, ghost done: seq<MetaAtom>) returns (index: int)
      requires NonNegative(parent.domains) && 0 <= v < |parent.domains|
      requires NumberedAs(done) && index0 == |done|
      modifies this`metaAtomMap, this`factNames
      ensures var pairs := WithFirst(FactPair(v, a), FactsBetween(parent.domains, v + 1, |parent.domains|));
        NumberedAs(done + pairs) && index == |done + pairs|
    {
      LaterPairsStart(parent.domains, FactPair(v, a), done, v + 1);
      index := index0;
      ghost var numbered := done;
      var w := v + 1;
      while w < |parent.domains|
        invariant v + 1 <= w <= |parent.domains|
        invariant numbered == done + WithFirst(FactPair(v, a), FactsBetween(parent.domains, v + 1, w))
        invariant NumberedAs(numbered) && index == |numbered|
      {
        index, numbered := AddPairsWith(v, a, w, index, done, numbered);
        w := w + 1;
      }
    }

    /** The atoms (v=a, w=value) for every value of the later variable w. */
    method AddPairsWith(v: int, a: int, w: int, index0: int, ghost done: seq<MetaAtom>, ghost numbered0: seq<MetaAtom>)
      returns (index: int, ghost numbered: seq<MetaAtom>)
      requires NonNegative(parent.domains) && 0 <= v < w < |parent.domains|
      requires numbered0 == done + WithFirst(FactPair(v, a), FactsBetween(parent.domains, v + 1, w))
      requires NumberedAs(numbered0) && index0 == |numbered0|
      modifies this`metaAtomMap, this`factNames
      ensures numbered == done + WithFirst(FactPair(v, a), FactsBetween(parent.domains, v + 1, w + 1))
      ensures NumberedAs(numbered) && index == |numbered|
    {
      LaterPairsStep(parent.domains, FactPair(v, a), done, v + 1, w);
      index := AddPairs(v, a, w, 0, index0, numbered0);
      numbered := done + WithFirst(FactPair(v, a), FactsBetween(parent.domains, v + 1, w + 1));
    }

    /** The atoms (v=a, w=value) for value = lo, lo+1, ... of variable w:
        the loop over values of one variable in init_meta_atom_map, which
        starts at a for w = v and at 0 for every later w. */
    method AddPairs(v: int, a: int, w: int, lo: int, index0: int, ghost done: seq<MetaAtom>) returns (index: int)
      requires 0 <= v <= w < |parent.domains| && 0 <= lo <= parent.domains[w]
      requires NumberedAs(done) && index0 == |done|
      modifies this`metaAtomMap, this`factNames
      ensures var pairs := WithFirst(FactPair(v, a), ValuesOf(w, parent.domains[w])[lo..]);
        NumberedAs(done + pairs) && index == |done + pairs|
    {
      ghost var x := FactPair(v, a);
      ghost var vals := ValuesOf(w, parent.domains[w]);
      index := index0;
      var varName := "v_" + IntStr(v) + "=" + IntStr(a);
      var value := lo;
      assert done + WithFirst(x, vals[lo..lo]) == done;
      while value < parent.domains[w]
        invariant lo <= value <= parent.domains[w]
        invariant NumberedAs(done + WithFirst(x, vals[lo..value]))
        invariant index == |done| + value - lo
      {
        ghost var before := done + WithFirst(x, vals[lo..value]);
        WithFirstSlice(x, vals, lo, value);
        assert before + [(x, FactPair(w, value))] == done + WithFirst(x, vals[lo..value + 1]);
        PairName(v, a, w, value);
        var name := if FactPair(v, a) == FactPair(w, value) then varName
          else varName + "," + IntStr(w) + "=" + IntStr(value);
        index := NumberAtom((FactPair(v, a), FactPair(w, value)), name, index, before);
        value := value + 1;
      }
      assert vals[lo..value] == vals[lo..];
    }

    /** Numbers atom p with the next index and names it: the three
        statements shared by the two inner loops of init_meta_atom_map. */
    method NumberAtom(p: MetaAtom, name: string, index0: int, ghost before: seq<MetaAtom>) returns (index: int)
      requires NumberedAs(before) && index0 == |before|
      requires name == AtomName(p)
      modifies this`metaAtomMap, this`factNames
      ensures NumberedAs(before + [p])
      ensures index == index0 + 1
    {
      IndexMapAppend(before, p);
      NamesOfAppend(before, p);
      metaAtomMap := metaAtomMap[p := index0];
      index := index0 + 1;
      factNames := factNames + [["not " + name, name]];
    }

    /** setup_init_and_goal_states: every compiled variable gets domain 2,
        the initial values start at 0 and the goal empty; then each meta
        atom is visited once. */
    method SetupInitAndGoalStates()
      requires WellFormed(parent) && AtomsNumbered() && goals == []
      modifies this`domainSize, this`initialStateValues, this`goals
      ensures StatesSet()
    {
      ghost var atoms := MetaAtoms(parent.domains);
      MetaAtomIndex(parent.domains);
      MetaAtomsDistinct(parent.domains);
      MetaKeysIndexable(parent.domains);
      domainSize := seq(|metaAtomMap|, k => 2);
      initialStateValues := seq(|metaAtomMap|, k => 0);
      var initStateValues := parent.init;
      var goalFacts := GoalFacts();
      InitBeforeVisit(atoms, initStateValues, metaAtomMap.Keys);
      GoalsBeforeVisit(atoms, goalFacts, metaAtomMap.Keys);
      VisitMetaAtoms(initStateValues, goalFacts, atoms);
      InitAfterVisit(initialStateValues, atoms, initStateValues);
      GoalsAfterVisit(goals, atoms, goalFacts);
    }

    /** The goal_facts set of setup_init_and_goal_states. */
    method GoalFacts() returns (goalFacts: set<FactPair>)
      ensures goalFacts == GoalSet(parent.goals)
    {
      goalFacts := {};
      var g := 0;
      while g < |parent.goals|
        invariant 0 <= g <= |parent.goals|
        invariant goalFacts == GoalSet(parent.goals[..g])
      {
        assert parent.goals[..g + 1] == parent.goals[..g] + [parent.goals[g]];
        goalFacts := goalFacts + {parent.goals[g]};
        g := g + 1;
      }
      assert parent.goals[..g] == parent.goals;
    }

    /** The loop over meta_atom_map in setup_init_and_goal_states: the keys
        are visited in the map's own order, and atom i is set to 1 when both
        its facts hold initially and listed as the goal fact (i, 1) when
        both its facts are parent goals. */
    method VisitMetaAtoms(initStateValues: seq<int>, goalFacts: set<FactPair>, ghost atoms: seq<MetaAtom>)
      requires metaAtomMap == IndexMap(atoms) && Distinct(atoms)
      requires forall p :: p in metaAtomMap ==> Indexable(p, |initStateValues|)
      requires InitSetExcept(initialStateValues, atoms, initStateValues, metaAtomMap.Keys)
      requires GoalsListedExcept(goals, atoms, goalFacts, metaAtomMap.Keys)
      modifies this`initialStateValues, this`goals
      ensures InitSetExcept(initialStateValues, atoms, initStateValues, {})
      ensures GoalsListedExcept(goals, atoms, goalFacts, {})
    {
      IndexMapInverse(atoms);
      var remaining := metaAtomMap.Keys;
      while remaining != {}
        invariant remaining <= metaAtomMap.Keys
        invariant InitSetExcept(initialStateValues, atoms, initStateValues, remaining)
        invariant GoalsListedExcept(goals, atoms, goalFacts, remaining)
        decreases |remaining|
      {
        var current :| current in remaining;
        VisitMetaAtom(current, initStateValues, goalFacts, atoms, remaining);
        remaining := remaining - {current};
      }
    }
  
    /** One iteration of that loop, for the key current. */
    method VisitMetaAtom(current: MetaAtom, initStateValues: seq<int>, goalFacts: set<FactPair>,
                         ghost atoms: seq<MetaAtom>, ghost remaining: set<MetaAtom>)
      requires Distinct(atoms) && current in remaining && Indexable(current, |initStateValues|)
      requires current in metaAtomMap && 0 <= metaAtomMap[current] < |atoms| && atoms[metaAtomMap[current]] == current
      requires InitSetExcept(initialStateValues, atoms, initStateValues, remaining)
      requires GoalsListedExcept(goals, atoms, goalFacts, remaining)
      modifies this`initialStateValues, this`goals
      ensures InitSetExcept(initialStateValues, atoms, initStateValues, remaining - {current})
      ensures GoalsListedExcept(goals, atoms, goalFacts, remaining - {current})
    {
      var i := metaAtomMap[current];
      InitVisitStep(initialStateValues, atoms, initStateValues, remaining, i);
      GoalVisitStep(goals, atoms, goalFacts, remaining, i);
      if current.0.variable == -1 || initStateValues[current.0.variable] == current.0.value {
        if current.1.variable == -1 || initStateValues[current.1.variable] == current.1.value {
          initialStateValues := initialStateValues[i := 1];
        }
      }
      if current.0.variable == -1 || current.0 in goalFacts {
        if current.1.variable == -1 || current.1 in goalFacts {
          goals := goals + [FactPair(i, 1)];
        }
      }
    }
  
    /** setup_new_ops: the copies of every parent operator, in operator
        order. */
    method SetupNewOps()
      requires OpsStored()
      modifies this`metaOperators
      ensures OpsBuilt()
    {
      metaOperators := [];
      var opId := 0;
      while opId < |parent.ops|
        invariant 0 <= opId <= |parent.ops|
        invariant OpsStored()
        invariant metaOperators == CompiledOpsUpTo(metaAtomMap, parent.domains, parent.ops, opId)
      {
        AddOperator(opId);
        opId := opId + 1;
      }
    }

    /** One round of the loop of setup_new_ops: the copies of operator opId
        extend the compiled operators of the operators before it. */
    method AddOperator(opId: int)
      requires OpsStored() && 0 <= opId < |parent.ops|
      requires metaOperators == CompiledOpsUpTo(metaAtomMap, parent.domains, parent.ops, opId)
      modifies this`metaOperators
      ensures metaOperators == CompiledOpsUpTo(metaAtomMap, parent.domains, parent.ops, opId + 1)
    {
      AddCopiesOf(opId);
      CompiledOpsStep(metaAtomMap, parent.domains, parent.ops, opId);
    }

    /** The body of the loop of setup_new_ops for operator opId: the copy
        for S = {}, then the copies for the atoms s of the variables no
        effect mentions. */
    method AddCopiesOf(opId: int)
      requires OpsStored() && 0 <= opId < |parent.ops|
      modifies this`metaOperators
      ensures metaOperators == old(metaOperators) + OpCopies(metaAtomMap, parent.domains, opId, parent.ops[opId])
    {
      ghost var op := parent.ops[opId];
      ghost var m := metaAtomMap;
      var newPre := GenerateMetaPreconditions(opId);
      var newEff, effectVars := GenerateMetaEffects(opId);
      metaOperators := metaOperators + [MetaOperator(opId, FactPair(-1, -1), newPre, newEff, parent.ops[opId].cost)];
      for v := 0 to |parent.domains|
        invariant OpsStored()
        invariant metaOperators == old(metaOperators) + [EmptyCopy(m, opId, op)] + SCopies(m, opId, op, SAtomsUpTo(parent.domains, op, v))
      {
        ghost var before := metaOperators;
        if v in effectVars {
          continue;
        }
        AddSCopiesOf(opId, v, newPre, newEff);
        SCopiesAppend(m, opId, op, SAtomsUpTo(parent.domains, op, v), SValuesUpTo(op.pre, v, parent.domains[v]));
        AppendAssoc(old(metaOperators) + [EmptyCopy(m, opId, op)], SCopies(m, opId, op, SAtomsUpTo(parent.domains, op, v)),
          SCopies(m, opId, op, SValuesUpTo(op.pre, v, parent.domains[v])));
      }
    }

    /** The loop over the values of variable v: a copy for each atom
        s = (v, val) that no precondition contradicts. */
    method AddSCopiesOf(opId: int, v: int, newPre: seq<FactPair>, newEff: seq<FactPair>)
      requires OpsStored() && 0 <= opId < |parent.ops| && 0 <= v < |parent.domains|
      requires newPre == MetaPreconditions(metaAtomMap, parent.ops[opId].pre)
      requires newEff == MetaEffects(metaAtomMap, parent.ops[opId].eff)
      modifies this`metaOperators
      ensures metaOperators == old(metaOperators) +
        SCopies(metaAtomMap, opId, parent.ops[opId], SValuesUpTo(parent.ops[opId].pre, v, parent.domains[v]))
    {
      ghost var op := parent.ops[opId];
      ghost var m := metaAtomMap;
      var val := 0;
      while val < parent.domains[v]
        invariant 0 <= val && (val <= parent.domains[v] || val == 0)
        invariant OpsStored()
        invariant metaOperators == old(metaOperators) + SCopies(m, opId, op, SValuesUpTo(op.pre, v, val))
      {
        var sAtom := FactPair(v, val);
        if !ContradictPrecondition(opId, sAtom) {
          var copy := MakeSCopy(opId, sAtom, newPre, newEff);
          metaOperators := metaOperators + [copy];
          SCopiesAppend(m, opId, op, SValuesUpTo(op.pre, v, val), [sAtom]);
          AppendAssoc(old(metaOperators), SCopies(m, opId, op, SValuesUpTo(op.pre, v, val)), [copy]);
        }
        val := val + 1;
      }
    }

    /** The copy of operator opId for S = {sAtom}, built from the copy for
        S = {}. */
    method MakeSCopy(opId: int, sAtom: FactPair, newPre: seq<FactPair>, newEff: seq<FactPair>) returns (copy: MetaOperator)
      requires OpsStored() && 0 <= opId < |parent.ops|
      requires newPre == MetaPreconditions(metaAtomMap, parent.ops[opId].pre)
      requires newEff == MetaEffects(metaAtomMap, parent.ops[opId].eff)
      ensures copy == SCopy(metaAtomMap, opId, parent.ops[opId], sAtom)
    {
      var copyPre := newPre + [FactPair(Lookup(metaAtomMap, (sAtom, sAtom)), 1)];
      copyPre := TranslatePairs(copyPre, WithSecond(oldPre[opId], sAtom));
      var copyEff := TranslatePairs(newEff, WithSecond(oldEff[opId], sAtom));
      copy := MetaOperator(opId, sAtom, copyPre, copyEff, parent.ops[opId].cost);
    }

    /** contradict_precondition: some precondition of operator opId sets
        sAtom's variable to another value. */
    function ContradictPrecondition(opId: int, sAtom: FactPair): (r: bool)
      requires 0 <= opId < |oldPre|
      reads this`oldPre
      ensures r <==> (exists i :: 0 <= i < |oldPre[opId]| &&
                        oldPre[opId][i].variable == sAtom.variable && oldPre[opId][i].value != sAtom.value)
    {
      ConflictsWith(oldPre[opId], sAtom)
    }

    /** generate_meta_preconditions: the empty atom, then the meta atom of
        every ordered pair of preconditions that has one. */
    method GenerateMetaPreconditions(opId: int) returns (newPre: seq<FactPair>)
      requires 0 <= opId < |oldPre|
      ensures newPre == MetaPreconditions(metaAtomMap, oldPre[opId])
    {
      var pre := oldPre[opId];
      var first := FactPair(Lookup(metaAtomMap, EmptyAtom), 1);
      newPre := [first];
      for i := 0 to |pre|
        invariant newPre == [first] + TranslateAll(metaAtomMap, Product(pre[..i], pre))
      {
        newPre := TranslatePairs(newPre, WithFirst(pre[i], pre));
        ProductStep(pre, pre, i);
        TranslateAllAppend(metaAtomMap, Product(pre[..i], pre), WithFirst(pre[i], pre));
        AppendAssoc([first], TranslateAll(metaAtomMap, Product(pre[..i], pre)), TranslateAll(metaAtomMap, WithFirst(pre[i], pre)));
      }
      assert pre[..|pre|] == pre;
    }

    /** generate_meta_effects: the meta atom of every ordered pair of
        effects that has one, and the set of the effects' variables. */
    method GenerateMetaEffects(opId: int) returns (newEff: seq<FactPair>, effectVars: set<int>)
      requires 0 <= opId < |oldEff|
      ensures newEff == MetaEffects(metaAtomMap, oldEff[opId])
      ensures effectVars == EffectVars(oldEff[opId])
    {
      var eff := oldEff[opId];
      newEff := [];
      effectVars := {};
      for i := 0 to |eff|
        invariant newEff == TranslateAll(metaAtomMap, Product(eff[..i], eff))
        invariant effectVars == EffectVars(eff[..i])
      {
        assert EffectVars(eff[..i + 1]) == EffectVars(eff[..i]) + {eff[i].variable} by {
          assert forall k :: 0 <= k < i ==> eff[..i + 1][k] == eff[..i][k];
        }
        effectVars := effectVars + {eff[i].variable};
        newEff := TranslatePairs(newEff, WithFirst(eff[i], eff));
        ProductStep(eff, eff, i);
        TranslateAllAppend(metaAtomMap, Product(eff[..i], eff), WithFirst(eff[i], eff));
      }
      assert eff[..|eff|] == eff;
    }

    /** The inner loops of generate_meta_preconditions,
        generate_meta_effects and setup_new_ops: translates each pair in
        order and appends the ones translate_into_meta_atom finds. */
    method TranslatePairs(acc: seq<FactPair>, ps: seq<MetaAtom>) returns (r: seq<FactPair>)
      ensures r == acc + TranslateAll(metaAtomMap, ps)
    {
      r := acc;
      for k := 0 to |ps|
        invariant r == acc + TranslateAll(metaAtomMap, ps[..k])
      {
        var metaAtom := Translate(metaAtomMap, ps[k].0, ps[k].1);
        TranslateAllStep(metaAtomMap, ps[..k], ps[k]);
        assert ps[..k + 1] == ps[..k] + [ps[k]];
        if metaAtom.variable != -2 {
          AppendAssoc(acc, TranslateAll(metaAtomMap, ps[..k]), [metaAtom]);
          r := r + [metaAtom];
        }
      }
      assert ps[..|ps|] == ps;
    }
  
    /** convert_state_values_from_parent: the compiled state of the parent
        state values. The source overwrites values in place; here the new
        values are returned. */
    method ConvertStateValuesFromParent(values: seq<int>) returns (newValues: seq<int>)
      requires Valid() && |values| == |parent.domains|
      ensures newValues == CompiledState(MetaAtoms(parent.domains), values)
      ensures values == parent.init ==> newValues == initialStateValues
    {
      ghost var atoms := MetaAtoms(parent.domains);
      MetaAtomIndex(parent.domains);
      MetaAtomsDistinct(parent.domains);
      MetaKeysIndexable(parent.domains);
      newValues := seq(|domainSize|, k => 0);
      InitBeforeVisit(atoms, values, metaAtomMap.Keys);
      newValues := SetHoldingAtoms(values, newValues, atoms);
      InitAfterVisit(newValues, atoms, values);
    }

    /** The loop of convert_state_values_from_parent over meta_atom_map, in
        the map's own order: atom index is set to 1 when both its facts
        hold in values. */
    method SetHoldingAtoms(values: seq<int>, newValues0: seq<int>, ghost atoms: seq<MetaAtom>) returns (newValues: seq<int>)
      requires metaAtomMap == IndexMap(atoms) && Distinct(atoms)
      requires forall p :: p in metaAtomMap ==> Indexable(p, |values|)
      requires InitSetExcept(newValues0, atoms, values, metaAtomMap.Keys)
      ensures InitSetExcept(newValues, atoms, values, {})
    {
      IndexMapInverse(atoms);
      newValues := newValues0;
      var remaining := metaAtomMap.Keys;
      while remaining != {}
        invariant remaining <= metaAtomMap.Keys
        invariant InitSetExcept(newValues, atoms, values, remaining)
        decreases |remaining|
      {
        var factPairs :| factPairs in remaining;
        var index := metaAtomMap[factPairs];
        var firstValid := factPairs.0.variable == -1 || values[factPairs.0.variable] == factPairs.0.value;
        var secondValid := factPairs.1.variable == -1 || values[factPairs.1.variable] == factPairs.1.value;
        InitVisitStep(newValues, atoms, values, remaining, index);
        if firstValid && secondValid {
          newValues := newValues[index := 1];
        }
        remaining := remaining - {factPairs};
      }
    }

    // -------------------------------------------------------------------
    // The task interface.

    /** get_num_variables: one variable per meta atom, that is one for the
        empty atom, d(d+1)/2 for a variable of domain size d, and d * d'
        for each two variables of domain sizes d and d'. */
    function NumVariables(): (n: int)
      requires Valid()
      reads this
      ensures n == |MetaAtoms(parent.domains)|
      ensures NonNegative(parent.domains) && n == NumMetaAtoms(parent.domains)
    {
      MetaAtomIndex(parent.domains);
      WellFormedDomains(parent);
      MetaAtomsCount(parent.domains);
      |metaAtomMap|
    }

    /** get_variable_name: the name of meta atom var. */
    function VariableName(v: int): (name: string)
      requires Valid() && 0 <= v < NumVariables()
      reads this
      ensures name == AtomName(MetaAtoms(parent.domains)[v])
    {
      MetaAtomIndex(parent.domains);
      NamesOfAt(MetaAtoms(parent.domains));
      factNames[v][1]
    }

    /** get_variable_domain_size: every compiled variable is binary. */
    function VariableDomainSize(v: int): (size: int)
      requires Valid() && 0 <= v < NumVariables()
      reads this
      ensures size == 2
    {
      MetaAtomIndex(parent.domains);
      domainSize[v]
    }

    /** get_fact_name: value 1 of a compiled variable is its atom's name,
        value 0 that name after "not ". */
    function FactName(fact: FactPair): (name: string)
      requires Valid() && 0 <= fact.variable < NumVariables() && 0 <= fact.value < 2
      reads this
      ensures var atomName := AtomName(MetaAtoms(parent.domains)[fact.variable]);
        name == if fact.value == 1 then atomName else "not " + atomName
    {
      MetaAtomIndex(parent.domains);
      NamesOfAt(MetaAtoms(parent.domains));
      factNames[fact.variable][fact.value]
    }

    /** get_operator_cost: the cost of the parent operator of the copy. */
    function OperatorCost(index: int): (cost: int)
      requires Valid() && 0 <= index < |metaOperators|
      reads this
      ensures 0 <= metaOperators[index].parentId < |parent.ops|
      ensures cost == parent.ops[metaOperators[index].parentId].cost && cost >= 0
    {
      CompiledOpsShape(parent.domains, parent.ops);
      assert metaOperators[index] in metaOperators;
      metaOperators[index].cost
    }

    /** get_operator_name. */
    function OperatorName(index: int): string
      requires Valid() && 0 <= index < |metaOperators|
      reads this
    {
      OperatorLabel(metaOperators[index].parentId, metaOperators[index].sAtom)
    }

    /** Two compiled operators with the same name are copies of the same
        parent operator for the same extra atom. */
    lemma {:induction false} OperatorNameIdentifies(i: int, j: int)
      requires Valid() && 0 <= i < |metaOperators| && 0 <= j < |metaOperators|
      requires OperatorName(i) == OperatorName(j)
      ensures metaOperators[i].parentId == metaOperators[j].parentId
      ensures metaOperators[i].sAtom == metaOperators[j].sAtom
    {
      CompiledOpsShape(parent.domains, parent.ops);
      CompiledOpsAtoms(metaAtomMap, parent.domains, parent.ops, |parent.ops|);
      var c, d := metaOperators[i], metaOperators[j];
      assert c in metaOperators && d in metaOperators;
      OperatorLabelInjective(c.parentId, c.sAtom, d.parentId, d.sAtom);
    }

    /** get_num_operators: at least one copy per parent operator. */
    function NumOperators(): (n: int)
      requires Valid()
      reads this
      ensures n >= |parent.ops|
    {
      CompiledOpsShape(parent.domains, parent.ops);
      |metaOperators|
    }

    /** get_num_operator_preconditions: the empty atom, one meta atom per
        ordered pair of parent preconditions, and for a copy with an extra
        atom s, s itself and s with each parent precondition. */
    function NumOperatorPreconditions(index: int): (n: int)
      requires Valid() && 0 <= index < |metaOperators|
      reads this
      ensures 0 <= metaOperators[index].parentId < |parent.ops|
      ensures var pre := parent.ops[metaOperators[index].parentId].pre;
        n == 1 + |pre| * |pre| + (if metaOperators[index].sAtom == NoFact then 0 else 1 + |pre|)
    {
      OperatorFactsValid();
      assert metaOperators[index] in metaOperators;
      |metaOperators[index].preconditions|
    }

    /** get_operator_precondition: a meta atom of the task set to 1. */
    function OperatorPrecondition(opIndex: int, factIndex: int): (f: FactPair)
      requires Valid() && 0 <= opIndex < |metaOperators|
      requires 0 <= factIndex < |metaOperators[opIndex].preconditions|
      reads this
      ensures f.value == 1 && 0 <= f.variable < NumVariables()
    {
      MetaAtomIndex(parent.domains);
      CompiledOpsShape(parent.domains, parent.ops);
      assert metaOperators[opIndex] in metaOperators;
      assert metaOperators[opIndex].preconditions[factIndex] in metaOperators[opIndex].preconditions;
      metaOperators[opIndex].preconditions[factIndex]
    }

    /** get_num_operator_effects: one meta atom per ordered pair of parent
        effects, and for a copy with an extra atom s, s with each parent
        effect. */
    function NumOperatorEffects(opIndex: int): (n: int)
      requires Valid() && 0 <= opIndex < |metaOperators|
      reads this
      ensures 0 <= metaOperators[opIndex].parentId < |parent.ops|
      ensures var eff := parent.ops[metaOperators[opIndex].parentId].eff;
        n == |eff| * |eff| + (if metaOperators[opIndex].sAtom == NoFact then 0 else |eff|)
    {
      OperatorFactsValid();
      assert metaOperators[opIndex] in metaOperators;
      |metaOperators[opIndex].effects|
    }

    /** Every compiled operator has the sizes CopySizes gives it. */
    lemma {:induction false} OperatorFactsValid()
      requires Valid()
      ensures forall c :: c in metaOperators ==> CopySizes(parent.ops, c)
    {
      forall o | 0 <= o < |parent.ops| ensures AllFacts(parent.domains, parent.ops[o].pre) && AllFacts(parent.domains, parent.ops[o].eff) {
        assert WellFormedOperator(parent.domains, parent.ops[o]);
      }
      MetaAtomIndex(parent.domains);
      CompiledOpsSizes(parent.domains, parent.ops, |parent.ops|);
    }

    /** get_operator_effect: a meta atom of the task set to 1. */
    function OperatorEffect(opIndex: int, effIndex: int): (f: FactPair)
      requires Valid() && 0 <= opIndex < |metaOperators|
      requires 0 <= effIndex < |metaOperators[opIndex].effects|
      reads this
      ensures f.value == 1 && 0 <= f.variable < NumVariables()
    {
      MetaAtomIndex(parent.domains);
      CompiledOpsShape(parent.domains, parent.ops);
      assert metaOperators[opIndex] in metaOperators;
      assert metaOperators[opIndex].effects[effIndex] in metaOperators[opIndex].effects;
      metaOperators[opIndex].effects[effIndex]
    }

    /** get_goal_fact: meta atom i set to 1, where both facts of atom i are
        parent goals. */
    function GoalFact(index: int): (f: FactPair)
      requires Valid() && 0 <= index < |goals|
      reads this
      ensures f.value == 1 && 0 <= f.variable < |MetaAtoms(parent.domains)|
      ensures IsGoalAtom(MetaAtoms(parent.domains)[f.variable], GoalSet(parent.goals))
    {
      var k := goals[index].variable;
      assert IsGoalAtom(MetaAtoms(parent.domains)[k], GoalSet(parent.goals)) by {
        assert 0 <= index < |goals| && goals[index].variable == k;
      }
      goals[index]
    }

    /** get_num_goals: the empty atom is always a goal, and no atom is
        listed twice. */
    function NumGoals(): (n: int)
      requires Valid()
      reads this
      ensures 1 <= n <= |MetaAtoms(parent.domains)|
    {
      GoalAtomsCounted();
      |goals|
    }

    lemma {:induction false} GoalAtomsCounted()
      requires Valid()
      ensures 1 <= |goals| <= |MetaAtoms(parent.domains)|
    {
      var atoms := MetaAtoms(parent.domains);
      assert IsGoalAtom(atoms[0], GoalSet(parent.goals));
      DistinctVarsCount(goals, |atoms|);
    }

    /** get_initial_state_values: the compiled initial state, in which the
        empty atom holds. */
    function InitialStateValues(): (values: seq<int>)
      requires Valid()
      reads this
      ensures values == CompiledState(MetaAtoms(parent.domains), parent.init)
      ensures |values| == |MetaAtoms(parent.domains)| && values[0] == 1
    {
      MetaAtomIndex(parent.domains);
      initialStateValues
    }

    /** get_num_operator_effect_conditions: no effect is conditional. */
    function NumOperatorEffectConditions(opIndex: int, effIndex: int): (n: int)
      ensures n == 0
    {
      0
    }
  }
}
