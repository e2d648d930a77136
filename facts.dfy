/**
 * Facts and the parent planning task shared by the h^2 heuristic and the
 * Pi^m compilation: a finite-domain task with variables 0..n-1, each with a
 * domain of values 0..d-1, an initial state, goal facts and operators with
 * precondition and effect facts and a cost.
 */
module Facts {

  /** An assignment `variable = value`. The field is not called `var`, which
      is a keyword here. */
  datatype FactPair = FactPair(variable: int, value: int)

  /** The "no second fact" sentinel (-1, -1). */
  const NoFact: FactPair := FactPair(-1, -1)

  /** The "no such meta atom" sentinel (-2, -2). */
  const NotFound: FactPair := FactPair(-2, -2)

  /** FactPair's operator<: lexicographic on (variable, value). */
  predicate Less(a: FactPair, b: FactPair)
  {
    a.variable < b.variable || (a.variable == b.variable && a.value < b.value)
  }

  predicate LessEq(a: FactPair, b: FactPair)
  {
    Less(a, b) || a == b
  }

  datatype Operator = Operator(pre: seq<FactPair>, eff: seq<FactPair>, cost: int)

  /** The parent task as the heuristics see it through the task interface. */
  datatype Task = Task(domains: seq<int>, init: seq<int>, goals: seq<FactPair>, ops: seq<Operator>)

  predicate IsFact(domains: seq<int>, f: FactPair)
  {
    0 <= f.variable < |domains| && 0 <= f.value < domains[f.variable]
  }

  predicate AllFacts(domains: seq<int>, fs: seq<FactPair>)
  {
    forall i :: 0 <= i < |fs| ==> IsFact(domains, fs[i])
  }

  /** No variable is mentioned twice. */
  predicate DistinctVars(fs: seq<FactPair>)
  {
    forall i, j :: 0 <= i < j < |fs| ==> fs[i].variable != fs[j].variable
  }

  /** Variables strictly increase along the sequence. */
  predicate IncreasingVars(fs: seq<FactPair>)
  {
    forall i, j :: 0 <= i < j < |fs| ==> fs[i].variable < fs[j].variable
  }

  /** Sorted by FactPair's operator<, as std::sort leaves a vector. */
  predicate Sorted(fs: seq<FactPair>)
  {
    forall i, j :: 0 <= i < j < |fs| ==> LessEq(fs[i], fs[j])
  }

  predicate WellFormedOperator(domains: seq<int>, o: Operator)
  {
    && AllFacts(domains, o.pre) && DistinctVars(o.pre)
    && AllFacts(domains, o.eff) && DistinctVars(o.eff)
    && o.cost >= 0
  }

  /** What the planner guarantees about a task: a value for every variable in
      the initial state, goals on distinct variables listed in variable order,
      operators whose preconditions and effects mention each variable at most
      once, and non-negative costs. */
  predicate WellFormed(t: Task)
  {
    && |t.init| == |t.domains|
    && (forall v :: 0 <= v < |t.domains| ==> 0 <= t.init[v] < t.domains[v])
    && AllFacts(t.domains, t.goals) && IncreasingVars(t.goals)
    && (forall o :: 0 <= o < |t.ops| ==> WellFormedOperator(t.domains, t.ops[o]))
  }

  /** `values[f.variable] == f.value`, the fact holds in the state `values`. */
  predicate HoldsIn(f: FactPair, values: seq<int>)
  {
    0 <= f.variable < |values| && values[f.variable] == f.value
  }

  predicate IsGoalState(t: Task, state: seq<int>)
  {
    forall i :: 0 <= i < |t.goals| ==> HoldsIn(t.goals[i], state)
  }

  /** The facts of a state, one per variable (task_properties::get_fact_pairs). */
  function StateFacts(values: seq<int>): (r: seq<FactPair>)
    ensures |r| == |values|
    ensures forall v :: 0 <= v < |values| ==> r[v].variable == v && HoldsIn(r[v], values)
  {
    seq(|values|, v requires 0 <= v < |values| => FactPair(v, values[v]))
  }

  /** Some fact of `fs` assigns `f`'s variable a different value. This is the
      scan shared by contradict_effect_of, contradict_precondition and the
      early exit of hm_table_evaluation. */
  function ConflictsWith(fs: seq<FactPair>, f: FactPair): (r: bool)
    ensures r <==> exists i :: 0 <= i < |fs| && fs[i].variable == f.variable && fs[i].value != f.value
  {
    if fs == [] then false
    else if fs[0].variable == f.variable && fs[0].value != f.value then true
    else
      var rest := ConflictsWith(fs[1..], f);
      assert rest ==> exists i :: 1 <= i < |fs| && fs[i].variable == f.variable && fs[i].value != f.value by {
        if rest {
          var i :| 0 <= i < |fs[1..]| && fs[1..][i].variable == f.variable && fs[1..][i].value != f.value;
          assert fs[i + 1] == fs[1..][i];
        }
      }
      assert (exists i :: 1 <= i < |fs| && fs[i].variable == f.variable && fs[i].value != f.value) ==> rest by {
        if exists i :: 1 <= i < |fs| && fs[i].variable == f.variable && fs[i].value != f.value {
          var i :| 1 <= i < |fs| && fs[i].variable == f.variable && fs[i].value != f.value;
          assert fs[1..][i - 1] == fs[i];
        }
      }
      rest
  }

  // ---------------------------------------------------------------------
  // std::sort on a vector of FactPair, modelled by insertion sort: the
  // sorted permutation of a sequence under a total order is unique, so any
  // sorting procedure gives the same vector.

  /** Inserts f before the first element not below it. */
  function Insert(f: FactPair, s: seq<FactPair>): seq<FactPair>
  {
    if s == [] then [f]
    else if Less(s[0], f) then [s[0]] + Insert(f, s[1..])
    else [f] + s
  }

  function SortFacts(fs: seq<FactPair>): seq<FactPair>
  {
    if fs == [] then [] else Insert(fs[0], SortFacts(fs[1..]))
  }

  /** Insertion adds exactly f. */
  lemma {:induction false} InsertPerm(f: FactPair, s: seq<FactPair>)
    ensures multiset(Insert(f, s)) == multiset(s) + multiset{f}
  {
    if s != [] && Less(s[0], f) {
      InsertPerm(f, s[1..]);
      assert s == [s[0]] + s[1..];
    }
  }

  /** Inserting into a sorted sequence keeps it sorted. */
  lemma {:induction false} InsertSorted(f: FactPair, s: seq<FactPair>)
    requires Sorted(s)
    ensures Sorted(Insert(f, s))
  {
    if s != [] && Less(s[0], f) {
      var tail := Insert(f, s[1..]);
      InsertSorted(f, s[1..]);
      InsertPerm(f, s[1..]);
      forall k | 0 <= k < |tail| ensures LessEq(s[0], tail[k]) {
        assert tail[k] in multiset(tail);
        if tail[k] != f {
          assert tail[k] in multiset(s[1..]);
          var j :| 0 <= j < |s[1..]| && s[1..][j] == tail[k];
          assert s[j + 1] == tail[k];
        }
      }
    } else if s != [] {
      forall k | 0 <= k < |s| ensures LessEq(f, s[k]) {
        assert LessEq(s[0], s[k]);
      }
    }
  }

  /** std::sort's promise: the result is sorted and a permutation of the
      input. */
  lemma {:induction false} SortFactsSorted(fs: seq<FactPair>)
    ensures Sorted(SortFacts(fs))
    ensures multiset(SortFacts(fs)) == multiset(fs)
  {
    if fs != [] {
      SortFactsSorted(fs[1..]);
      InsertSorted(fs[0], SortFacts(fs[1..]));
      InsertPerm(fs[0], SortFacts(fs[1..]));
      assert fs == [fs[0]] + fs[1..];
    }
  }

  lemma {:induction false} InsertKeepsIncreasing(f: FactPair, s: seq<FactPair>)
    requires IncreasingVars(s)
    requires forall x :: x in s ==> x.variable != f.variable
    ensures IncreasingVars(Insert(f, s))
  {
    if s != [] && Less(s[0], f) {
      InsertKeepsIncreasing(f, s[1..]);
      InsertPerm(f, s[1..]);
      var tail := Insert(f, s[1..]);
      forall x | x in tail ensures s[0].variable < x.variable {
        assert x in multiset(tail);
        if x != f {
          assert x in multiset(s[1..]);
          var k :| 0 <= k < |s[1..]| && s[1..][k] == x;
          assert s[k + 1] == x;
        }
      }
      assert Insert(f, s) == [s[0]] + tail;
    } else if s != [] {
      assert f.variable < s[0].variable;
      assert Insert(f, s) == [f] + s;
    }
  }

  /** Sorting facts on distinct variables orders them by variable: the
      property that makes every partial tuple of a sorted precondition or
      effect a key of the h^2 table. */
  lemma {:induction false} SortedFactsIncreasing(fs: seq<FactPair>)
    requires DistinctVars(fs)
    ensures IncreasingVars(SortFacts(fs))
    ensures forall x :: x in SortFacts(fs) <==> x in fs
  {
    if fs != [] {
      assert fs == [fs[0]] + fs[1..];
      assert DistinctVars(fs[1..]) by {
        forall i, j | 0 <= i < j < |fs| - 1 ensures fs[1..][i].variable != fs[1..][j].variable {
          assert fs[1..][i] == fs[i + 1] && fs[1..][j] == fs[j + 1];
        }
      }
      SortedFactsIncreasing(fs[1..]);
      SortFactsSorted(fs[1..]);
      var sorted := SortFacts(fs[1..]);
      forall x | x in sorted ensures x.variable != fs[0].variable {
        assert x in fs[1..];
        var k :| 0 <= k < |fs[1..]| && fs[1..][k] == x;
        assert fs[k + 1] == x;
      }
      InsertKeepsIncreasing(fs[0], sorted);
    }
    SortFactsSorted(fs);
    forall x ensures x in SortFacts(fs) <==> x in fs {
      assert x in SortFacts(fs) <==> x in multiset(SortFacts(fs));
      assert x in fs <==> x in multiset(fs);
    }
  }

  /** A sorted precondition or effect list of a well-formed operator is a
      list of facts in increasing variable order. */
  lemma {:induction false} SortedFactsValid(domains: seq<int>, fs: seq<FactPair>)
    requires AllFacts(domains, fs) && DistinctVars(fs)
    ensures AllFacts(domains, SortFacts(fs)) && IncreasingVars(SortFacts(fs))
  {
    SortedFactsIncreasing(fs);
    var r := SortFacts(fs);
    forall i | 0 <= i < |r| ensures IsFact(domains, r[i]) {
      assert r[i] in fs;
    }
  }
}
