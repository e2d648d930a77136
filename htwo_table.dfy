/**
 * The h^2 table as values: which pairs are keys, what the table holds right
 * after initialisation, how a tuple is evaluated against it, and when the
 * table is a fixpoint of the update rules. The class in htwo_heuristic.dfy
 * is proved against these definitions.
 */
module HTwoTable {
  import opened Facts
  import opened HTwoPair

  /** INT_MAX, the table's "unreachable" value. */
  const INF: int := 2147483647

  function Max(a: int, b: int): int
  {
    if a >= b then a else b
  }

  /** A key of the table: a singleton (f, NoFact) or a pair of facts on two
      variables, the lower variable first. */
  predicate IsTableKey(domains: seq<int>, p: Pair)
  {
    && IsFact(domains, p.first)
    && (p.second == NoFact || (IsFact(domains, p.second) && p.first.variable < p.second.variable))
  }

  /** What check_in_initial_state decides: the first fact occurs, and the
      second is the sentinel or occurs as well (a second occurrence, when both
      facts are the same). */
  predicate InState(p: Pair, facts: seq<FactPair>)
  {
    && p.first in facts
    && (|| p.second.variable == -1
        || (if p.second == p.first then multiset(facts)[p.first] >= 2 else p.second in facts))
  }

  function InitialEntry(p: Pair, facts: seq<FactPair>): int
  {
    if InState(p, facts) then 0 else INF
  }

  /** The table's entry for `p`; every key looked up is present (the class
      proves it), so the default is never used. */
  function Entry(table: map<Pair, int>, p: Pair): int
  {
    if p in table then table[p] else INF
  }

  /** All entries lie between 0 and INT_MAX. */
  predicate Bounded(table: map<Pair, int>)
  {
    forall p :: p in table ==> 0 <= table[p] <= INF
  }

  // ---------------------------------------------------------------------
  // generate_all_partial_tuples

  /** The pairs emitted for position i: (t[i], NoFact), then (t[i], t[j]) for
      every j > i in order. */
  function Row(t: seq<FactPair>, i: nat): seq<Pair>
    requires i < |t|
  {
    [Pair(t[i], NoFact)] + seq(|t| - i - 1, j requires 0 <= j < |t| - i - 1 => Pair(t[i], t[i + 1 + j]))
  }

  /** The rows of positions 0..k-1, in order. */
  function Rows(t: seq<FactPair>, k: nat): seq<Pair>
    requires k <= |t|
  {
    if k == 0 then [] else Rows(t, k - 1) + Row(t, k - 1)
  }

  function PartialTuples(t: seq<FactPair>): seq<Pair>
  {
    Rows(t, |t|)
  }

  lemma {:induction false} RowsCount(t: seq<FactPair>, k: nat)
    requires k <= |t|
    ensures 2 * |Rows(t, k)| == k * (2 * |t| - k + 1)
  {
    if k > 0 {
      RowsCount(t, k - 1);
      assert |Row(t, k - 1)| == |t| - k + 1;
      calc {
        2 * |Rows(t, k)|;
        2 * |Rows(t, k - 1)| + 2 * (|t| - k + 1);
        (k - 1) * (2 * |t| - k + 2) + 2 * (|t| - k + 1);
        k * (2 * |t| - k + 1);
      }
    }
  }

  lemma {:induction false} RowsMembers(t: seq<FactPair>, k: nat, p: Pair)
    requires k <= |t|
    ensures p in Rows(t, k) <==>
      || (exists i :: 0 <= i < k && p == Pair(t[i], NoFact))
      || (exists i, j :: 0 <= i < k && i < j < |t| && p == Pair(t[i], t[j]))
  {
    if k > 0 {
      RowsMembers(t, k - 1, p);
      var i := k - 1;
      var row := Row(t, i);
      if p in row {
        if p != Pair(t[i], NoFact) {
          var m :| 0 <= m < |row| && row[m] == p;
          assert p == Pair(t[i], t[i + m]);
        }
      }
      if exists j :: i < j < |t| && p == Pair(t[i], t[j]) {
        var j :| i < j < |t| && p == Pair(t[i], t[j]);
        assert row[j - i] == p;
      }
    }
  }

  /** An n-tuple has n(n+1)/2 partial tuples: every (t[i], NoFact) and every
      (t[i], t[j]) with i < j, and nothing else. */
  lemma {:induction false} PartialTuplesShape(t: seq<FactPair>)
    ensures |PartialTuples(t)| == |t| * (|t| + 1) / 2
    ensures forall p :: p in PartialTuples(t) <==>
      || (exists i :: 0 <= i < |t| && p == Pair(t[i], NoFact))
      || (exists i, j :: 0 <= i < j < |t| && p == Pair(t[i], t[j]))
  {
    RowsCount(t, |t|);
    forall p ensures p in PartialTuples(t) <==>
      || (exists i :: 0 <= i < |t| && p == Pair(t[i], NoFact))
      || (exists i, j :: 0 <= i < j < |t| && p == Pair(t[i], t[j]))
    {
      RowsMembers(t, |t|, p);
    }
  }

  /** Sorting preconditions and effects is what makes every partial tuple of
      them a key of the table. */
  lemma {:induction false} PartialTuplesAreKeys(domains: seq<int>, t: seq<FactPair>)
    requires AllFacts(domains, t) && IncreasingVars(t)
    ensures forall p :: p in PartialTuples(t) ==> IsTableKey(domains, p)
  {
    PartialTuplesShape(t);
  }

  // ---------------------------------------------------------------------
  // eval

  /** The largest entry among the pairs `ps`, 0 for none. */
  function MaxEntry(table: map<Pair, int>, ps: seq<Pair>): int
  {
    if ps == [] then 0 else Max(MaxEntry(table, ps[..|ps| - 1]), Entry(table, ps[|ps| - 1]))
  }

  /** eval(t): the largest entry over all partial tuples of t. */
  function EvalSpec(table: map<Pair, int>, t: seq<FactPair>): int
  {
    MaxEntry(table, PartialTuples(t))
  }

  /** MaxEntry is the maximum: an upper bound of every entry that is one of
      them (or 0 for no pairs), and INT_MAX as soon as one entry is. */
  lemma {:induction false} MaxEntryIsMaximum(table: map<Pair, int>, ps: seq<Pair>)
    requires Bounded(table)
    ensures 0 <= MaxEntry(table, ps) <= INF
    ensures forall i :: 0 <= i < |ps| ==> Entry(table, ps[i]) <= MaxEntry(table, ps)
    ensures ps == [] ==> MaxEntry(table, ps) == 0
    ensures ps != [] ==> exists i :: 0 <= i < |ps| && MaxEntry(table, ps) == Entry(table, ps[i])
    ensures (exists i :: 0 <= i < |ps| && Entry(table, ps[i]) == INF) ==> MaxEntry(table, ps) == INF
  {
    if ps != [] {
      var init := ps[..|ps| - 1];
      MaxEntryIsMaximum(table, init);
      forall i | 0 <= i < |ps| ensures Entry(table, ps[i]) <= MaxEntry(table, ps) {
        if i < |ps| - 1 {
          assert ps[i] == init[i];
        }
      }
      if MaxEntry(table, init) > Entry(table, ps[|ps| - 1]) {
        var i :| 0 <= i < |init| && MaxEntry(table, init) == Entry(table, init[i]);
        assert init[i] == ps[i];
      }
    }
  }

  /** eval returns 0 on the empty tuple, INT_MAX when some partial tuple is
      INT_MAX, and otherwise the largest entry over the partial tuples. */
  lemma {:induction false} EvalCharacterized(table: map<Pair, int>, t: seq<FactPair>)
    requires Bounded(table)
    ensures t == [] ==> EvalSpec(table, t) == 0
    ensures forall p :: p in PartialTuples(t) ==> Entry(table, p) <= EvalSpec(table, t)
    ensures t != [] ==> exists p :: p in PartialTuples(t) && EvalSpec(table, t) == Entry(table, p)
    ensures (exists p :: p in PartialTuples(t) && Entry(table, p) == INF) ==> EvalSpec(table, t) == INF
  {
    var ps := PartialTuples(t);
    MaxEntryIsMaximum(table, ps);
    PartialTuplesShape(t);
    if t != [] {
      assert Pair(t[0], NoFact) in ps;
    }
  }

  // ---------------------------------------------------------------------
  // hm_table_evaluation

  /** The key of {f0, f} for facts on two variables, lower variable first. */
  function OrderedKey(f0: FactPair, f: FactPair): Pair
  {
    if f0.variable < f.variable then Pair(f0, f) else Pair(f, f0)
  }

  /** The keys {f0, fact} for the facts f0 of t on another variable, in order. */
  function OtherVarKeys(t: seq<FactPair>, fact: FactPair): seq<Pair>
  {
    if t == [] then []
    else
      var rest := OtherVarKeys(t[..|t| - 1], fact);
      var f0 := t[|t| - 1];
      if f0.variable == fact.variable then rest else rest + [OrderedKey(f0, fact)]
  }

  /** How one more fact of t changes the scan of hm_table_evaluation. */
  lemma {:induction false} ExtendStep(t: seq<FactPair>, fact: FactPair, n: nat)
    requires n < |t|
    ensures ConflictsWith(t[..n + 1], fact) ==
      (ConflictsWith(t[..n], fact) || (t[n].variable == fact.variable && t[n].value != fact.value))
    ensures OtherVarKeys(t[..n + 1], fact) ==
      if t[n].variable == fact.variable then OtherVarKeys(t[..n], fact)
      else OtherVarKeys(t[..n], fact) + [OrderedKey(t[n], fact)]
  {
    var s := t[..n + 1];
    assert s[..n] == t[..n];
    if ConflictsWith(t[..n], fact) {
      var i :| 0 <= i < n && t[..n][i].variable == fact.variable && t[..n][i].value != fact.value;
      assert s[i] == t[..n][i];
    }
    if ConflictsWith(s, fact) && !(t[n].variable == fact.variable && t[n].value != fact.value) {
      var i :| 0 <= i < n + 1 && s[i].variable == fact.variable && s[i].value != fact.value;
      assert t[..n][i] == s[i];
    }
  }

  lemma {:induction false} MaxEntryAppend(table: map<Pair, int>, ps: seq<Pair>, p: Pair)
    ensures MaxEntry(table, ps + [p]) == Max(MaxEntry(table, ps), Entry(table, p))
  {
    assert (ps + [p])[..|ps|] == ps;
  }

  /** hm_table_evaluation(t, fact, e): the value of t extended by fact. */
  function ExtendEvalSpec(table: map<Pair, int>, t: seq<FactPair>, fact: FactPair, e: int): int
  {
    if ConflictsWith(t, fact) then INF
    else Max(Max(e, Entry(table, Pair(fact, NoFact))), MaxEntry(table, OtherVarKeys(t, fact)))
  }

  lemma {:induction false} OtherVarKeysMembers(t: seq<FactPair>, fact: FactPair)
    ensures forall i :: 0 <= i < |t| && t[i].variable != fact.variable ==> OrderedKey(t[i], fact) in OtherVarKeys(t, fact)
    ensures forall q :: q in OtherVarKeys(t, fact) ==>
      exists i :: 0 <= i < |t| && t[i].variable != fact.variable && q == OrderedKey(t[i], fact)
  {
    if t != [] {
      var init := t[..|t| - 1];
      OtherVarKeysMembers(init, fact);
      forall i | 0 <= i < |t| - 1 ensures t[i] == init[i] {
      }
      forall q | q in OtherVarKeys(t, fact)
        ensures exists i :: 0 <= i < |t| && t[i].variable != fact.variable && q == OrderedKey(t[i], fact)
      {
        if q in OtherVarKeys(init, fact) {
          var i :| 0 <= i < |init| && init[i].variable != fact.variable && q == OrderedKey(init[i], fact);
          assert t[i] == init[i];
        } else {
          assert q == OrderedKey(t[|t| - 1], fact);
        }
      }
    }
  }

  /** The extended value is INT_MAX on a conflicting fact; otherwise it is
      at least e, the singleton entry of fact and the entry of every {f0, fact}
      for f0 in t on another variable, INT_MAX when any of them is, and one of
      them otherwise. */
  lemma {:induction false} ExtendEvalCharacterized(table: map<Pair, int>, t: seq<FactPair>, fact: FactPair, e: int)
    requires Bounded(table) && e <= INF
    ensures ConflictsWith(t, fact) ==> ExtendEvalSpec(table, t, fact, e) == INF
    ensures !ConflictsWith(t, fact) ==>
      && e <= ExtendEvalSpec(table, t, fact, e) <= INF
      && Entry(table, Pair(fact, NoFact)) <= ExtendEvalSpec(table, t, fact, e)
      && (forall i :: 0 <= i < |t| && t[i].variable != fact.variable ==>
            Entry(table, OrderedKey(t[i], fact)) <= ExtendEvalSpec(table, t, fact, e))
    ensures (|| e == INF || Entry(table, Pair(fact, NoFact)) == INF
             || exists i :: 0 <= i < |t| && t[i].variable != fact.variable && Entry(table, OrderedKey(t[i], fact)) == INF)
            ==> ExtendEvalSpec(table, t, fact, e) == INF
    ensures !ConflictsWith(t, fact) ==>
      || ExtendEvalSpec(table, t, fact, e) == e
      || ExtendEvalSpec(table, t, fact, e) == Entry(table, Pair(fact, NoFact))
      || exists i :: 0 <= i < |t| && t[i].variable != fact.variable &&
           ExtendEvalSpec(table, t, fact, e) == Entry(table, OrderedKey(t[i], fact))
  {
    var ks := OtherVarKeys(t, fact);
    MaxEntryIsMaximum(table, ks);
    OtherVarKeysMembers(t, fact);
    forall q | q in ks ensures Entry(table, q) <= MaxEntry(table, ks) {
      var m :| 0 <= m < |ks| && ks[m] == q;
    }
    if ks != [] && MaxEntry(table, ks) > Max(e, Entry(table, Pair(fact, NoFact))) {
      var m :| 0 <= m < |ks| && MaxEntry(table, ks) == Entry(table, ks[m]);
      assert ks[m] in ks;
    }
  }

  /** Every key hm_table_evaluation looks up exists in a full table. */
  lemma {:induction false} ExtensionKeysPresent(domains: seq<int>, table: map<Pair, int>, t: seq<FactPair>, fact: FactPair)
    requires forall p :: IsTableKey(domains, p) ==> p in table
    requires AllFacts(domains, t) && IsFact(domains, fact)
    ensures Pair(fact, NoFact) in table
    ensures forall i :: 0 <= i < |t| && t[i].variable != fact.variable ==> OrderedKey(t[i], fact) in table
  {
    assert IsTableKey(domains, Pair(fact, NoFact));
    forall i | 0 <= i < |t| && t[i].variable != fact.variable
      ensures OrderedKey(t[i], fact) in table
    {
      assert IsTableKey(domains, OrderedKey(t[i], fact));
    }
  }

  // ---------------------------------------------------------------------
  // The fixpoint reached by update_hm_table

  /** The fact that, joined with f, makes up the key q. */
  function Partner(q: Pair, f: FactPair): FactPair
  {
    if q.first == f then q.second else q.first
  }

  /** The keys extend_tuple(f, o, ...) may lower: real pairs containing f
      whose partner fact no effect of o sets to another value. */
  predicate Extendable(task: Task, o: nat, f: FactPair, q: Pair)
    requires o < |task.ops|
  {
    (q.first == f || q.second == f) && q.second.variable != -1 && !ConflictsWith(task.ops[o].eff, Partner(q, f))
  }

  /** Every key of start that extend_tuple(f, o, ...) may not lower still
      has its entry in table. */
  ghost predicate ExtensionOnly(table: map<Pair, int>, start: map<Pair, int>, task: Task, o: nat, f: FactPair)
    requires o < |task.ops|
  {
    forall q :: q in start && !Extendable(task, o, f, q) ==> q in table && table[q] == start[q]
  }

  lemma {:induction false} ExtensionOnlyTrans(t1: map<Pair, int>, t2: map<Pair, int>, t3: map<Pair, int>, task: Task, o: nat, f: FactPair)
    requires o < |task.ops|
    requires ExtensionOnly(t2, t1, task, o, f) && ExtensionOnly(t3, t2, task, o, f)
    ensures ExtensionOnly(t3, t1, task, o, f)
  {
  }

  /** extend_tuple(f, o, c1) cannot lower the key q: either q is not
      Extendable, or the extended value is INT_MAX, or q is already at most
      that value plus the cost of o. */
  ghost predicate ExtensionSettledAt(table: map<Pair, int>, task: Task, o: nat, f: FactPair, c1: int, q: Pair)
    requires o < |task.ops|
  {
    var op := task.ops[o];
    var c2 := ExtendEvalSpec(table, SortFacts(op.pre), Partner(q, f), c1);
    Extendable(task, o, f, q) && c2 != INF ==> Entry(table, q) <= c2 + op.cost
  }

  /** Nothing extend_tuple(f, o, c1) would do lowers the table. */
  ghost predicate ExtensionSettled(table: map<Pair, int>, task: Task, o: nat, f: FactPair, c1: int)
    requires o < |task.ops|
  {
    forall q {:trigger ExtensionSettledAt(table, task, o, f, c1, q)} :: q in table ==> ExtensionSettledAt(table, task, o, f, c1, q)
  }

  /** Applying operator o, whose precondition has value c1, to its partial
      effect e changes nothing: e is at most c1 + cost, and a singleton e is
      settled under extension. */
  ghost predicate EffectSettled(table: map<Pair, int>, task: Task, o: nat, c1: int, e: Pair)
    requires o < |task.ops|
  {
    && Entry(table, e) <= c1 + task.ops[o].cost
    && (e.second.variable == -1 ==> ExtensionSettled(table, task, o, e.first, c1))
  }

  lemma {:induction false} SettledPrefix(table: map<Pair, int>, task: Task, o: nat, c1: int, effs: seq<Pair>, n: nat)
    requires o < |task.ops| && n < |effs|
    requires forall j :: 0 <= j < n ==> EffectSettled(table, task, o, c1, effs[j])
    requires EffectSettled(table, task, o, c1, effs[n])
    ensures forall j :: 0 <= j < n + 1 ==> EffectSettled(table, task, o, c1, effs[j])
  {
  }

  /** One pass over operator o changes nothing: if its precondition is
      reachable at cost c1, every partial effect is settled. */
  ghost predicate OperatorSettled(table: map<Pair, int>, task: Task, o: nat)
    requires o < |task.ops|
  {
    var c1 := EvalSpec(table, SortFacts(task.ops[o].pre));
    var effs := PartialTuples(SortFacts(task.ops[o].eff));
    c1 != INF ==> forall j :: 0 <= j < |effs| ==> EffectSettled(table, task, o, c1, effs[j])
  }

  lemma {:induction false} SettledOpsPrefix(table: map<Pair, int>, task: Task, n: nat)
    requires n < |task.ops|
    requires forall o :: 0 <= o < n ==> OperatorSettled(table, task, o)
    requires OperatorSettled(table, task, n)
    ensures forall o :: 0 <= o < n + 1 ==> OperatorSettled(table, task, o)
  {
  }

  ghost predicate Fixpoint(table: map<Pair, int>, task: Task)
  {
    forall o :: 0 <= o < |task.ops| ==> OperatorSettled(table, task, o)
  }

  // ---------------------------------------------------------------------
  // update_hm_table computes the greatest fixpoint below the table it
  // starts from: every update lowers an entry to a value that no fixpoint
  // below the starting table exceeds.

  /** init is the table init_hm_table builds for a state holding `facts`:
      every key, at its initial entry. */
  ghost predicate IsInitialTable(domains: seq<int>, facts: seq<FactPair>, init: map<Pair, int>)
  {
    && (forall p :: p in init <==> IsTableKey(domains, p))
    && (forall p :: p in init ==> init[p] == InitialEntry(p, facts))
  }

  /** update_hm_entry(p, val): the entry of p becomes min(old, val). */
  function LowerTo(table: map<Pair, int>, p: Pair, val: int): map<Pair, int>
    requires p in table
  {
    table[p := if table[p] > val then val else table[p]]
  }

  /** The table after extend_tuple(f, o, c1) visits the key q. */
  function ExtendAt(table: map<Pair, int>, task: Task, o: nat, f: FactPair, c1: int, q: Pair): map<Pair, int>
    requires o < |task.ops| && q in table
  {
    var op := task.ops[o];
    var c2 := ExtendEvalSpec(table, SortFacts(op.pre), Partner(q, f), c1);
    if Extendable(task, o, f, q) && c2 != INF then LowerTo(table, q, c2 + op.cost) else table
  }

  /** The key q is no higher in table than the value extend_tuple(f, o, c1)
      gives it when evaluated on the table start. */
  ghost predicate ExtendedFrom(table: map<Pair, int>, start: map<Pair, int>, task: Task, o: nat, f: FactPair, c1: int, q: Pair)
    requires o < |task.ops|
  {
    var op := task.ops[o];
    var c2 := ExtendEvalSpec(start, SortFacts(op.pre), Partner(q, f), c1);
    Extendable(task, o, f, q) && c2 != INF ==> Entry(table, q) <= c2 + op.cost
  }

  /** Every key of ks is no higher in table than its extension from start. */
  ghost predicate ExtendedFromAll(table: map<Pair, int>, start: map<Pair, int>, task: Task, o: nat, f: FactPair, c1: int, ks: set<Pair>)
    requires o < |task.ops|
  {
    forall q {:trigger ExtendedFrom(table, start, task, o, f, c1, q)} :: q in ks ==> ExtendedFrom(table, start, task, o, f, c1, q)
  }

  /** t is a fixpoint of the update rules with the keys of ceiling and no
      entry above it. */
  ghost predicate FixpointBelow(task: Task, t: map<Pair, int>, ceiling: map<Pair, int>)
  {
    Bounded(t) && Fixpoint(t, task) && NoHigher(t, ceiling)
  }

  /** No fixpoint below ceiling has an entry above table's. */
  ghost predicate AboveFixpoints(task: Task, table: map<Pair, int>, ceiling: map<Pair, int>)
  {
    forall t {:trigger FixpointBelow(task, t, ceiling)} :: FixpointBelow(task, t, ceiling) ==> NoHigher(t, table)
  }

  /** table is the greatest fixpoint below ceiling. */
  ghost predicate GreatestFixpointBelow(task: Task, table: map<Pair, int>, ceiling: map<Pair, int>)
  {
    FixpointBelow(task, table, ceiling) && AboveFixpoints(task, table, ceiling)
  }

  /** There is at most one greatest fixpoint below a table. */
  lemma {:induction false} GreatestFixpointUnique(task: Task, t1: map<Pair, int>, t2: map<Pair, int>, ceiling: map<Pair, int>)
    requires GreatestFixpointBelow(task, t1, ceiling) && GreatestFixpointBelow(task, t2, ceiling)
    ensures t1 == t2
  {
    assert NoHigher(t1, t2) && NoHigher(t2, t1);
    assert forall p :: p in t1 ==> t1[p] == t2[p];
  }

  /** The starting table is above every fixpoint below it. */
  lemma {:induction false} AboveFixpointsStart(task: Task, ceiling: map<Pair, int>)
    ensures AboveFixpoints(task, ceiling, ceiling)
  {
    forall t | FixpointBelow(task, t, ceiling) ensures NoHigher(t, ceiling) {
    }
  }

  /** A table no higher than another has no larger maximum. */
  lemma {:induction false} MaxEntryMonotone(t1: map<Pair, int>, t2: map<Pair, int>, ps: seq<Pair>)
    requires NoHigher(t1, t2)
    ensures MaxEntry(t1, ps) <= MaxEntry(t2, ps)
  {
    if ps != [] {
      MaxEntryMonotone(t1, t2, ps[..|ps| - 1]);
    }
  }

  /** eval and hm_table_evaluation are monotone in the table, and the
      latter also in the value it extends. */
  lemma {:induction false} EvalMonotone(t1: map<Pair, int>, t2: map<Pair, int>, t: seq<FactPair>, fact: FactPair, e1: int, e2: int)
    requires NoHigher(t1, t2) && e1 <= e2
    ensures EvalSpec(t1, t) <= EvalSpec(t2, t)
    ensures ExtendEvalSpec(t1, t, fact, e1) <= ExtendEvalSpec(t2, t, fact, e2)
  {
    MaxEntryMonotone(t1, t2, PartialTuples(t));
    MaxEntryMonotone(t1, t2, OtherVarKeys(t, fact));
  }

  /** c1 is at least the value of o's precondition in every fixpoint below
      ceiling. */
  ghost predicate EvalAbove(task: Task, ceiling: map<Pair, int>, o: nat, c1: int)
    requires o < |task.ops|
  {
    forall t {:trigger FixpointBelow(task, t, ceiling)} :: FixpointBelow(task, t, ceiling) ==>
      EvalSpec(t, SortFacts(task.ops[o].pre)) <= c1
  }

  /** The precondition value eval computes on a table above every fixpoint
      is above its value in each of them. */
  lemma {:induction false} EvalAboveFixpoints(task: Task, table: map<Pair, int>, ceiling: map<Pair, int>, o: nat, c1: int)
    requires o < |task.ops| && AboveFixpoints(task, table, ceiling)
    requires c1 == EvalSpec(table, SortFacts(task.ops[o].pre))
    ensures EvalAbove(task, ceiling, o, c1)
  {
    var pre := SortFacts(task.ops[o].pre);
    forall t | FixpointBelow(task, t, ceiling) ensures EvalSpec(t, pre) <= EvalSpec(table, pre) {
      MaxEntryMonotone(t, table, PartialTuples(pre));
    }
  }

  /** Lowering a partial effect e of o to c1 + cost keeps the table above
      every fixpoint: each of them is settled for o at a value at most c1. */
  lemma {:induction false} EffectKeepsAbove(task: Task, table: map<Pair, int>, r: map<Pair, int>, ceiling: map<Pair, int>, o: nat, c1: int, e: Pair)
    requires o < |task.ops| && e in table && c1 < INF
    requires AboveFixpoints(task, table, ceiling) && EvalAbove(task, ceiling, o, c1)
    requires e in PartialTuples(SortFacts(task.ops[o].eff))
    requires r == LowerTo(table, e, c1 + task.ops[o].cost)
    ensures AboveFixpoints(task, r, ceiling)
  {
    var effs := PartialTuples(SortFacts(task.ops[o].eff));
    var j :| 0 <= j < |effs| && effs[j] == e;
    forall t | FixpointBelow(task, t, ceiling) ensures NoHigher(t, r) {
      assert NoHigher(t, table);
      assert OperatorSettled(t, task, o);
      assert EffectSettled(t, task, o, EvalSpec(t, SortFacts(task.ops[o].pre)), effs[j]);
    }
  }

  /** One step of extend_tuple for the singleton partial effect e of o keeps
      the table above every fixpoint: each of them is settled under that
      extension at a value at most c1, and the extended value is monotone. */
  lemma {:induction false} ExtensionKeepsAbove(task: Task, table: map<Pair, int>, r: map<Pair, int>, ceiling: map<Pair, int>,
                                               o: nat, c1: int, e: Pair, q: Pair)
    requires o < |task.ops| && q in table && Bounded(table) && c1 <= INF
    requires AboveFixpoints(task, table, ceiling) && EvalAbove(task, ceiling, o, c1)
    requires e in PartialTuples(SortFacts(task.ops[o].eff)) && e.second.variable == -1
    requires r == ExtendAt(table, task, o, e.first, c1, q)
    ensures AboveFixpoints(task, r, ceiling)
  {
    var op := task.ops[o];
    var pre := SortFacts(op.pre);
    var fact := Partner(q, e.first);
    var c2 := ExtendEvalSpec(table, pre, fact, c1);
    if Extendable(task, o, e.first, q) && c2 != INF {
      var effs := PartialTuples(SortFacts(op.eff));
      var j :| 0 <= j < |effs| && effs[j] == e;
      ExtendEvalCharacterized(table, pre, fact, c1);
      forall t | FixpointBelow(task, t, ceiling) ensures NoHigher(t, r) {
        var c1t := EvalSpec(t, pre);
        assert NoHigher(t, table);
        EvalMonotone(t, table, pre, fact, c1t, c1);
        assert OperatorSettled(t, task, o);
        assert EffectSettled(t, task, o, c1t, effs[j]);
        assert ExtensionSettledAt(t, task, o, e.first, c1t, q);
      }
    }
  }

  /** One step of extend_tuple keeps the keys and the bounds, lowers
      nothing but q, and nothing but an Extendable q; the flag is set exactly
      when q drops, and a q that does not drop is settled. */
  lemma {:induction false} ExtendAtEffect(table: map<Pair, int>, updated: bool, t: map<Pair, int>, tUpdated: bool,
                                          start: map<Pair, int>, startUpdated: bool, task: Task, o: nat, f: FactPair, c1: int, q: Pair)
    requires o < |task.ops| && q in table && Bounded(table) && 0 <= c1 <= INF && 0 <= task.ops[o].cost
    requires LowersOnly(table, updated, start, startUpdated)
    requires t == ExtendAt(table, task, o, f, c1, q) && tUpdated == (updated || t[q] < table[q])
    ensures t.Keys == table.Keys && Bounded(t)
    ensures LowersOnly(t, tUpdated, start, startUpdated)
    ensures ExtensionOnly(t, table, task, o, f)
    ensures !tUpdated ==> ExtensionSettledAt(t, task, o, f, c1, q)
  {
    var op := task.ops[o];
    var c2 := ExtendEvalSpec(table, SortFacts(op.pre), Partner(q, f), c1);
    if Extendable(task, o, f, q) && c2 != INF {
      ExtendEvalCharacterized(table, SortFacts(op.pre), Partner(q, f), c1);
      LowersOnlyUpdate(table, updated, start, startUpdated, q, c2 + op.cost);
      assert t.Keys == table.Keys;
      if !(t[q] < table[q]) {
        assert t == table;
      }
    }
  }

  /** extend_tuple from the singleton partial effect e never touches e. */
  lemma {:induction false} SingletonKept(table: map<Pair, int>, lowered: map<Pair, int>, task: Task, o: nat, e: Pair)
    requires o < |task.ops| && e in lowered && e.second.variable == -1
    requires ExtensionOnly(table, lowered, task, o, e.first)
    ensures e in table && table[e] == lowered[e]
  {
    assert !Extendable(task, o, e.first, e);
  }

  /** Visiting q keeps every visited key of start no higher than its
      extension from start, q included, since the extended value only drops
      as the table does. */
  lemma {:induction false} ExtendedFromStep(table: map<Pair, int>, t: map<Pair, int>, start: map<Pair, int>, task: Task, o: nat,
                                            f: FactPair, c1: int, q: Pair, remaining: set<Pair>)
    requires o < |task.ops| && q in table && NoHigher(table, start)
    requires Bounded(start) && c1 <= INF
    requires ExtendedFromAll(table, start, task, o, f, c1, start.Keys - remaining)
    requires t == ExtendAt(table, task, o, f, c1, q)
    ensures ExtendedFromAll(t, start, task, o, f, c1, start.Keys - (remaining - {q}))
  {
    var pre := SortFacts(task.ops[o].pre);
    forall k | k in start.Keys - (remaining - {q}) ensures ExtendedFrom(t, start, task, o, f, c1, k) {
      if k == q {
        EvalMonotone(table, start, pre, Partner(q, f), c1, c1);
        ExtendEvalCharacterized(start, pre, Partner(q, f), c1);
      } else {
        assert ExtendedFrom(table, start, task, o, f, c1, k);
      }
    }
  }

  // ---------------------------------------------------------------------
  // Entries only decrease; the sum of all entries bounds the passes.

  /** t1 has the keys of t2 and no entry above t2's. */
  ghost predicate NoHigher(t1: map<Pair, int>, t2: map<Pair, int>)
  {
    t1.Keys == t2.Keys && forall p :: p in t1 ==> t1[p] <= t2[p]
  }

  /** t1 is no higher than t2 and strictly lower somewhere. */
  ghost predicate Lowered(t1: map<Pair, int>, t2: map<Pair, int>)
  {
    NoHigher(t1, t2) && exists p :: p in t1 && t1[p] < t2[p]
  }

  ghost function PickKey(ks: set<Pair>): Pair
    requires ks != {}
  {
    var k :| k in ks; k
  }

  /** The sum of the entries of the keys ks. */
  ghost function SumOver(table: map<Pair, int>, ks: set<Pair>): int
    requires ks <= table.Keys
  {
    if ks == {} then 0 else var k := PickKey(ks); table[k] + SumOver(table, ks - {k})
  }

  lemma {:induction false} SumOverRemove(table: map<Pair, int>, ks: set<Pair>, y: Pair)
    requires ks <= table.Keys && y in ks
    ensures SumOver(table, ks) == table[y] + SumOver(table, ks - {y})
    decreases ks
  {
    var x := PickKey(ks);
    if y != x {
      SumOverRemove(table, ks - {x}, y);
      SumOverRemove(table, ks - {y}, x);
      assert ks - {x} - {y} == ks - {y} - {x};
    }
  }

  lemma {:induction false} SumOverMonotone(t1: map<Pair, int>, t2: map<Pair, int>, ks: set<Pair>)
    requires ks <= t1.Keys && ks <= t2.Keys
    requires forall p :: p in ks ==> t1[p] <= t2[p]
    ensures SumOver(t1, ks) <= SumOver(t2, ks)
    ensures (exists p :: p in ks && t1[p] < t2[p]) ==> SumOver(t1, ks) < SumOver(t2, ks)
    decreases ks
  {
    if ks != {} {
      var k := PickKey(ks);
      SumOverRemove(t2, ks, k);
      SumOverMonotone(t1, t2, ks - {k});
    }
  }

  lemma {:induction false} SumOverNonNegative(table: map<Pair, int>, ks: set<Pair>)
    requires ks <= table.Keys
    requires forall p :: p in ks ==> table[p] >= 0
    ensures SumOver(table, ks) >= 0
    decreases ks
  {
    if ks != {} {
      SumOverNonNegative(table, ks - {PickKey(ks)});
    }
  }

  /** The table went from `start` (flag `startUpdated`) to `table` (flag
      `updated`) by lowering entries only: the flag is never cleared, and it
      is set exactly when some entry dropped. */
  ghost predicate LowersOnly(table: map<Pair, int>, updated: bool, start: map<Pair, int>, startUpdated: bool)
  {
    && NoHigher(table, start)
    && (startUpdated ==> updated)
    && (!startUpdated && updated ==> Lowered(table, start))
    && (!updated ==> table == start)
  }

  /** update_hm_entry keeps LowersOnly: the entry becomes min(old, val) and
      the flag is set when it drops. */
  lemma {:induction false} LowersOnlyUpdate(table: map<Pair, int>, updated: bool, start: map<Pair, int>, startUpdated: bool, p: Pair, val: int)
    requires LowersOnly(table, updated, start, startUpdated) && p in table
    ensures var v := if table[p] > val then val else table[p];
      LowersOnly(table[p := v], updated || table[p] > val, start, startUpdated)
  {
    var v := if table[p] > val then val else table[p];
    var t' := table[p := v];
    assert t'.Keys == table.Keys;
    if !startUpdated && updated {
      var q :| q in table && table[q] < start[q];
      assert t'[q] < start[q];
    }
    if table[p] > val {
      assert t'[p] < start[p];
    }
  }

  lemma {:induction false} LowersOnlyTrans(t1: map<Pair, int>, u1: bool, t2: map<Pair, int>, u2: bool, t3: map<Pair, int>, u3: bool)
    requires LowersOnly(t2, u2, t1, u1) && LowersOnly(t3, u3, t2, u2)
    ensures LowersOnly(t3, u3, t1, u1)
  {
    if !u1 && u2 {
      var q :| q in t2 && t2[q] < t1[q];
      assert t3[q] < t1[q];
    }
    if !u2 && u3 {
      var q :| q in t3 && t3[q] < t2[q];
      assert q in t1 && t3[q] < t1[q];
    }
  }

  lemma {:induction false} NoHigherTrans(t1: map<Pair, int>, t2: map<Pair, int>, t3: map<Pair, int>)
    requires NoHigher(t1, t2) && NoHigher(t2, t3)
    ensures NoHigher(t1, t3)
  {
  }

  /** A pass that lowers some entry and raises none lowers the sum of all
      entries, which never drops below 0: the fixpoint loop terminates. */
  lemma {:induction false} LoweredSumDrops(t1: map<Pair, int>, t2: map<Pair, int>)
    requires Lowered(t1, t2)
    ensures SumOver(t1, t1.Keys) < SumOver(t2, t2.Keys)
  {
    SumOverMonotone(t1, t2, t1.Keys);
  }

  // ---------------------------------------------------------------------

  /** A tuple whose facts all hold in the state keeps h^2 value 0: its
      partial tuples start at 0 and entries never rise or go negative. */
  lemma {:induction false} TrueTuplesCostNothing(domains: seq<int>, table: map<Pair, int>, facts: seq<FactPair>, t: seq<FactPair>)
    requires Bounded(table)
    requires forall p :: IsTableKey(domains, p) ==> p in table && table[p] <= InitialEntry(p, facts)
    requires AllFacts(domains, t) && IncreasingVars(t)
    requires forall i :: 0 <= i < |t| ==> t[i] in facts
    ensures EvalSpec(table, t) == 0
  {
    var ps := PartialTuples(t);
    PartialTuplesShape(t);
    PartialTuplesAreKeys(domains, t);
    MaxEntryIsMaximum(table, ps);
    forall m | 0 <= m < |ps| ensures Entry(table, ps[m]) == 0 {
      var p := ps[m];
      assert p in ps;
      if exists i, j :: 0 <= i < j < |t| && p == Pair(t[i], t[j]) {
        var i, j :| 0 <= i < j < |t| && p == Pair(t[i], t[j]);
        assert p.second != p.first;
      }
      assert InState(p, facts);
    }
  }
}
