/** The search (`perform_full_optimization_parallel`): every iteration
    optimises each cathode/anode pair of the two loaded dictionaries,
    cathode-major, keeps the pair with the lowest RMSD, and after the last
    iteration the lowest of those per-iteration bests wins; the winning
    pair is looked up again by its IDs and reconstructed.

    The global optimizer (`differential_evolution`) is an oracle: for an
    iteration and a pair of IDs it returns a point of the search box, and
    the RMSD it reports is the objective's value there. `joblib.Parallel`
    returns its results in submission order, so the fan-out is a
    sequential map. */
module Search {
  import opened Outcomes
  import opened OrderedDict
  import opened HalfCells
  import opened Objective
  import opened Reconstruction

  /** Everything the objective closes over besides the pair and the
      parameters: the numerics, the engine variant, the measured battery
      curve `SOC_battery, OCV_battery`, and the weights. */
  datatype Setup = Setup(num: Numerics, v: Variant, soc: seq<real>, ocv: seq<real>, w: Weights)

  /** One submitted job: a cathode entry and an anode entry of the dictionaries. */
  datatype Task<C, A> = Task(cathode: Entry<C, Dataset<C>>, anode: Entry<A, Dataset<A>>)

  /** What `perform_optimization` returns: the pair's IDs, the optimised
      parameters and the RMSD at them. */
  datatype PairResult<C, A> = PairResult(cathodeId: C, anodeId: A, params: Params, rmsd: real)

  /** The guarded block after the search: it runs when both winning IDs are
      found again. When one is missing the engine goes on to read names only
      that block binds; the model records that as `NotReconstructed`. */
  datatype Outcome = Reconstructed(curves: Curves) | NotReconstructed

  /** The search's report: the per-iteration bests, the overall best, and
      what was rebuilt for it. */
  datatype Report<C, A> = Report(bests: seq<PairResult<C, A>>, best: PairResult<C, A>, outcome: Outcome)

  /** The optimizer returns points of the box the variant searches:
      `[0, 1]^4`, or `[0, 2]^2 x [0, 1]^4`. */
  ghost predicate OracleInBox<C(!new), A(!new)>(v: Variant, oracle: (nat, C, A) -> Params) {
    forall it, c, a :: InBox(v, oracle(it, c, a))
  }

  /** `perform_optimization` for one job in iteration `it`: the optimizer's
      point and the objective's value there, or the exception the objective
      raises. */
  function Optimize<C(!new), A(!new)>(s: Setup, oracle: (nat, C, A) -> Params, it: nat, t: Task<C, A>): (r: Result<PairResult<C, A>>)
    requires OracleInBox(s.v, oracle)
    ensures r.Ok? ==> r.value.cathodeId == t.cathode.key && r.value.anodeId == t.anode.key
    ensures r.Ok? ==> InBox(s.v, r.value.params)
    ensures r.Ok? <==> |t.anode.value.curve.xs| > 0 && |t.cathode.value.curve.xs| > 0
                       && |s.soc| == GridPoints && |s.ocv| == GridPoints
    ensures r.Ok? ==>
      Evaluate(s.num, s.v, r.value.params, t.anode.value.curve, t.cathode.value.curve, s.soc, s.ocv, s.w)
        == Ok(r.value.rmsd)
  {
    var p := oracle(it, t.cathode.key, t.anode.key);
    match Evaluate(s.num, s.v, p, t.anode.value.curve, t.cathode.value.curve, s.soc, s.ocv, s.w)
    case Err(e) => Err(e)
    case Ok(score) => Ok(PairResult(t.cathode.key, t.anode.key, p, score))
  }

  /** The jobs of one cathode against every anode, in anode order. */
  function Row<C(!new), A(!new)>(c: Entry<C, Dataset<C>>, anodes: Dict<A, Dataset<A>>): (r: seq<Task<C, A>>)
    ensures |r| == |anodes|
    ensures forall j :: 0 <= j < |anodes| ==> r[j] == Task(c, anodes[j])
  {
    seq(|anodes|, j requires 0 <= j < |anodes| => Task(c, anodes[j]))
  }

  /** The generator `for cathode in cathodes.items() for anode in
      anodes.items()`: one job per pair, drawn from the two dictionaries. */
  function Tasks<C(!new), A(!new)>(cathodes: Dict<C, Dataset<C>>, anodes: Dict<A, Dataset<A>>): (r: seq<Task<C, A>>)
    ensures |r| == |cathodes| * |anodes|
    ensures forall k :: 0 <= k < |r| ==> r[k].cathode in cathodes && r[k].anode in anodes
  {
    if |cathodes| == 0 then []
    else
      var rest := Tasks(cathodes[1..], anodes);
      assert |cathodes| * |anodes| == |anodes| + (|cathodes| - 1) * |anodes|;
      Row(cathodes[0], anodes) + rest
  }

  /** The jobs run cathode-major: the pair of cathode `i` and anode `j`
      is job `i * |anodes| + j`. */
  lemma {:induction false} TasksAt<C(!new), A(!new)>(cathodes: Dict<C, Dataset<C>>, anodes: Dict<A, Dataset<A>>, i: nat, j: nat)
    requires i < |cathodes| && j < |anodes|
    ensures i * |anodes| + j < |Tasks(cathodes, anodes)|
    ensures Tasks(cathodes, anodes)[i * |anodes| + j] == Task(cathodes[i], anodes[j])
  {
    var n := |anodes|;
    var r := Tasks(cathodes, anodes);
    assert r == Row(cathodes[0], anodes) + Tasks(cathodes[1..], anodes);
    if i == 0 {
      assert r[j] == Row(cathodes[0], anodes)[j];
    } else {
      TasksAt(cathodes[1..], anodes, i - 1, j);
      assert i * n + j == n + ((i - 1) * n + j);
      assert r[i * n + j] == Tasks(cathodes[1..], anodes)[(i - 1) * n + j];
    }
  }

  /** `Parallel(...)(jobs)`: every job's result in submission order, or the
      exception of the first job that raises. */
  function MapResults<T, U>(f: T -> Result<U>, jobs: seq<T>): (r: Result<seq<U>>)
    ensures r.Ok? <==> forall k :: 0 <= k < |jobs| ==> f(jobs[k]).Ok?
    ensures r.Ok? ==> |r.value| == |jobs|
    ensures r.Ok? ==> forall k :: 0 <= k < |jobs| ==> f(jobs[k]) == Ok(r.value[k])
    ensures r.Err? ==> exists k :: 0 <= k < |jobs| && f(jobs[k]) == Err(r.error)
                                   && forall j :: 0 <= j < k ==> f(jobs[j]).Ok?
  {
    if |jobs| == 0 then Ok([])
    else
      match f(jobs[0])
      case Err(e) => Err(e)
      case Ok(x) =>
        match MapResults(f, jobs[1..])
        case Err(e) =>
          assert forall k :: 1 <= k < |jobs| ==> jobs[1..][k - 1] == jobs[k];
          Err(e)
        case Ok(xs) => Ok([x] + xs)
  }

  /** One iteration's results: every pair, cathode-major. */
  function Pass<C(!new), A(!new)>(s: Setup, oracle: (nat, C, A) -> Params, it: nat,
                                  cathodes: Dict<C, Dataset<C>>, anodes: Dict<A, Dataset<A>>)
    : Result<seq<PairResult<C, A>>>
    requires OracleInBox(s.v, oracle)
  {
    MapResults((t: Task<C, A>) => Optimize(s, oracle, it, t), Tasks(cathodes, anodes))
  }

  /** A successful pass holds one result per pair, cathode-major: result
      `i * |anodes| + j` carries the IDs of cathode `i` and anode `j` and
      the objective's value for that pair at the optimizer's point. */
  lemma PassOrder<C(!new), A(!new)>(s: Setup, oracle: (nat, C, A) -> Params, it: nat,
                                    cathodes: Dict<C, Dataset<C>>, anodes: Dict<A, Dataset<A>>,
                                    rs: seq<PairResult<C, A>>, i: nat, j: nat, k: nat)
    requires OracleInBox(s.v, oracle)
    requires Pass(s, oracle, it, cathodes, anodes) == Ok(rs)
    requires i < |cathodes| && j < |anodes| && k == i * |anodes| + j
    ensures |rs| == |cathodes| * |anodes| && k < |rs|
    ensures rs[k].cathodeId == cathodes[i].key && rs[k].anodeId == anodes[j].key
    ensures rs[k].params == oracle(it, cathodes[i].key, anodes[j].key)
    ensures Evaluate(s.num, s.v, rs[k].params, anodes[j].value.curve, cathodes[i].value.curve,
                     s.soc, s.ocv, s.w) == Ok(rs[k].rmsd)
  {
    var tasks := Tasks(cathodes, anodes);
    assert k < |tasks| && tasks[k] == Task(cathodes[i], anodes[j]) by {
      TasksAt(cathodes, anodes, i, j);
    }
    assert Optimize(s, oracle, it, tasks[k]) == Ok(rs[k]);
  }

  /** `x` is what `min(rs, key=lambda x: x['RMSD'])` picks: an element of
      `rs` with the lowest RMSD, and the first such one. */
  predicate IsFirstMin<C(==,!new), A(==,!new)>(rs: seq<PairResult<C, A>>, x: PairResult<C, A>) {
    exists i :: 0 <= i < |rs| && rs[i] == x
      && (forall j :: 0 <= j < |rs| ==> x.rmsd <= rs[j].rmsd)
      && (forall j :: 0 <= j < i ==> x.rmsd < rs[j].rmsd)
  }

  /** The position Python's `min` settles on: it scans left to right and
      only a strictly lower RMSD replaces the current candidate. */
  function ArgMin<C(!new), A(!new)>(rs: seq<PairResult<C, A>>): (i: nat)
    requires |rs| > 0
    ensures i < |rs|
    ensures forall j :: 0 <= j < |rs| ==> rs[i].rmsd <= rs[j].rmsd
    ensures forall j :: 0 <= j < i ==> rs[i].rmsd < rs[j].rmsd
  {
    if |rs| == 1 then 0
    else
      var k := ArgMin(rs[..|rs| - 1]);
      assert forall j :: 0 <= j < |rs| - 1 ==> rs[..|rs| - 1][j] == rs[j];
      if rs[|rs| - 1].rmsd < rs[k].rmsd then |rs| - 1 else k
  }

  /** `min(rs, key=lambda x: x['RMSD'])`, raising on an empty sequence. */
  function FirstMin<C(==,!new), A(==,!new)>(rs: seq<PairResult<C, A>>): (r: Result<PairResult<C, A>>)
    ensures r.Ok? <==> |rs| > 0
    ensures r.Err? ==> r.error == EmptyMinimum
    ensures r.Ok? ==> IsFirstMin(rs, r.value)
  {
    if |rs| == 0 then Err(EmptyMinimum) else Ok(rs[ArgMin(rs)])
  }

  /** The guarded block: look both IDs up again and, when both are found,
      reconstruct the pair with the winning parameters. */
  function Rebuild<C(==,!new), A(==,!new)>(s: Setup, best: PairResult<C, A>,
                                 cathodes: Dict<C, Dataset<C>>, anodes: Dict<A, Dataset<A>>)
    : (r: Result<Outcome>)
    requires InBox(s.v, best.params)
    ensures r.Ok? && r.value.NotReconstructed? <==>
      !HasKey(cathodes, best.cathodeId) || !HasKey(anodes, best.anodeId)
  {
    match (Get(cathodes, best.cathodeId), Get(anodes, best.anodeId))
    case (Some(c), Some(a)) =>
      (match Reconstruct(s.num, s.v, best.params, a.curve, c.curve)
       case Err(e) => Err(e)
       case Ok(curves) => Ok(Reconstructed(curves)))
    case _ => Ok(NotReconstructed)
  }

  /** For a pair drawn from dictionaries with distinct keys, the lookup
      finds the very curves the pair was scored with, so the guard passes
      and the reconstruction is that of the scored pair. */
  lemma RebuildScoredPair<C(!new), A(!new)>(s: Setup, best: PairResult<C, A>,
                                        cathodes: Dict<C, Dataset<C>>, anodes: Dict<A, Dataset<A>>,
                                        i: nat, j: nat)
    requires InBox(s.v, best.params)
    requires DistinctKeys(cathodes) && DistinctKeys(anodes)
    requires i < |cathodes| && cathodes[i].key == best.cathodeId
    requires j < |anodes| && anodes[j].key == best.anodeId
    ensures Rebuild(s, best, cathodes, anodes) ==
      match Reconstruct(s.num, s.v, best.params, anodes[j].value.curve, cathodes[i].value.curve)
      case Err(e) => Err(e)
      case Ok(curves) => Ok(Reconstructed(curves))
  {
    assert Get(cathodes, best.cathodeId) == Some(cathodes[i].value);
    assert Get(anodes, best.anodeId) == Some(anodes[j].value);
  }

  /** A result drawn from the two dictionaries, with in-box parameters. */
  predicate Drawn<C(==,!new), A(==,!new)>(v: Variant, x: PairResult<C, A>,
                                cathodes: Dict<C, Dataset<C>>, anodes: Dict<A, Dataset<A>>) {
    && InBox(v, x.params)
    && (exists i :: 0 <= i < |cathodes| && cathodes[i].key == x.cathodeId)
    && (exists j :: 0 <= j < |anodes| && anodes[j].key == x.anodeId)
  }

  /** Every result of a successful pass is drawn from the dictionaries. */
  lemma PassDrawn<C(!new), A(!new)>(s: Setup, oracle: (nat, C, A) -> Params, it: nat,
                                cathodes: Dict<C, Dataset<C>>, anodes: Dict<A, Dataset<A>>, k: nat)
    requires OracleInBox(s.v, oracle)
    requires Pass(s, oracle, it, cathodes, anodes).Ok?
    requires k < |Pass(s, oracle, it, cathodes, anodes).value|
    ensures Drawn(s.v, Pass(s, oracle, it, cathodes, anodes).value[k], cathodes, anodes)
    ensures var x := Pass(s, oracle, it, cathodes, anodes).value[k];
      x.params == oracle(it, x.cathodeId, x.anodeId)
  {
    var tasks := Tasks(cathodes, anodes);
    var x := Pass(s, oracle, it, cathodes, anodes).value[k];
    assert Optimize(s, oracle, it, tasks[k]) == Ok(x);
    var i :| 0 <= i < |cathodes| && cathodes[i] == tasks[k].cathode;
    var j :| 0 <= j < |anodes| && anodes[j] == tasks[k].anode;
  }

  /** With no cathode or no anode, a pass submits no job and returns no result. */
  lemma EmptyPass<C(!new), A(!new)>(s: Setup, oracle: (nat, C, A) -> Params, it: nat,
                                    cathodes: Dict<C, Dataset<C>>, anodes: Dict<A, Dataset<A>>)
    requires OracleInBox(s.v, oracle)
    requires |cathodes| == 0 || |anodes| == 0
    ensures Pass(s, oracle, it, cathodes, anodes) == Ok([])
  {
    assert |Tasks(cathodes, anodes)| == 0;
  }

  /** What every job of a pass needs for the objective to return a value:
      a measured curve of 1001 points and a non-empty curve in every
      cathode and every anode dataset. */
  predicate Scorable<C, A>(s: Setup, cathodes: Dict<C, Dataset<C>>, anodes: Dict<A, Dataset<A>>) {
    && |s.soc| == GridPoints && |s.ocv| == GridPoints
    && (forall i :: 0 <= i < |cathodes| ==> |cathodes[i].value.curve.xs| > 0)
    && (forall j :: 0 <= j < |anodes| ==> |anodes[j].value.curve.xs| > 0)
  }

  /** Over two non-empty dictionaries, a pass succeeds exactly when every
      pair can be scored, whatever the iteration; it then holds one result
      per pair. */
  lemma PassSucceeds<C(!new), A(!new)>(s: Setup, oracle: (nat, C, A) -> Params, it: nat,
                                       cathodes: Dict<C, Dataset<C>>, anodes: Dict<A, Dataset<A>>)
    requires OracleInBox(s.v, oracle)
    requires |cathodes| > 0 && |anodes| > 0
    ensures Pass(s, oracle, it, cathodes, anodes).Ok? <==> Scorable(s, cathodes, anodes)
    ensures Pass(s, oracle, it, cathodes, anodes).Ok? ==>
      |Pass(s, oracle, it, cathodes, anodes).value| == |cathodes| * |anodes| > 0
  {
    if Scorable(s, cathodes, anodes) {
      ScorablePass(s, oracle, it, cathodes, anodes);
    }
    if Pass(s, oracle, it, cathodes, anodes).Ok? {
      PassScorable(s, oracle, it, cathodes, anodes);
    }
  }

  /** Whether a pass fails does not depend on the iteration: the optimizer
      only changes the parameters, and the objective's success does not
      depend on them. */
  lemma PassOutcomeIndependent<C(!new), A(!new)>(s: Setup, oracle: (nat, C, A) -> Params, it1: nat, it2: nat,
                                                 cathodes: Dict<C, Dataset<C>>, anodes: Dict<A, Dataset<A>>)
    requires OracleInBox(s.v, oracle)
    ensures Pass(s, oracle, it1, cathodes, anodes).Ok? <==> Pass(s, oracle, it2, cathodes, anodes).Ok?
  {
    if |cathodes| > 0 && |anodes| > 0 {
      PassSucceeds(s, oracle, it1, cathodes, anodes);
      PassSucceeds(s, oracle, it2, cathodes, anodes);
    } else {
      EmptyPass(s, oracle, it1, cathodes, anodes);
      EmptyPass(s, oracle, it2, cathodes, anodes);
    }
  }

  lemma ScorablePass<C(!new), A(!new)>(s: Setup, oracle: (nat, C, A) -> Params, it: nat,
                                       cathodes: Dict<C, Dataset<C>>, anodes: Dict<A, Dataset<A>>)
    requires OracleInBox(s.v, oracle) && Scorable(s, cathodes, anodes)
    ensures Pass(s, oracle, it, cathodes, anodes).Ok?
  {
    var tasks := Tasks(cathodes, anodes);
    var f := (t: Task<C, A>) => Optimize(s, oracle, it, t);
    forall k | 0 <= k < |tasks|
      ensures f(tasks[k]).Ok?
    {
      var i :| 0 <= i < |cathodes| && cathodes[i] == tasks[k].cathode;
      var j :| 0 <= j < |anodes| && anodes[j] == tasks[k].anode;
    }
    assert MapResults(f, tasks).Ok?;
  }

  lemma PassScorable<C(!new), A(!new)>(s: Setup, oracle: (nat, C, A) -> Params, it: nat,
                                       cathodes: Dict<C, Dataset<C>>, anodes: Dict<A, Dataset<A>>)
    requires OracleInBox(s.v, oracle)
    requires |cathodes| > 0 && |anodes| > 0 && Pass(s, oracle, it, cathodes, anodes).Ok?
    ensures Scorable(s, cathodes, anodes)
    ensures |Pass(s, oracle, it, cathodes, anodes).value| == |cathodes| * |anodes| > 0
  {
    forall i | 0 <= i < |cathodes|
      ensures |cathodes[i].value.curve.xs| > 0
    {
      PairScorable(s, oracle, it, cathodes, anodes, i, 0);
    }
    forall j | 0 <= j < |anodes|
      ensures |anodes[j].value.curve.xs| > 0
    {
      PairScorable(s, oracle, it, cathodes, anodes, 0, j);
    }
    PairScorable(s, oracle, it, cathodes, anodes, 0, 0);
  }

  /** A successful pass scored pair `(i, j)`, so both its curves have
      samples and the measured curve has 1001 points. */
  lemma PairScorable<C(!new), A(!new)>(s: Setup, oracle: (nat, C, A) -> Params, it: nat,
                                       cathodes: Dict<C, Dataset<C>>, anodes: Dict<A, Dataset<A>>,
                                       i: nat, j: nat)
    requires OracleInBox(s.v, oracle) && Pass(s, oracle, it, cathodes, anodes).Ok?
    requires i < |cathodes| && j < |anodes|
    ensures |cathodes[i].value.curve.xs| > 0 && |anodes[j].value.curve.xs| > 0
    ensures |s.soc| == GridPoints && |s.ocv| == GridPoints
    ensures |Pass(s, oracle, it, cathodes, anodes).value| == |cathodes| * |anodes| > 0
  {
    var rs := Pass(s, oracle, it, cathodes, anodes).value;
    PassOrder(s, oracle, it, cathodes, anodes, rs, i, j, PairIndex(i, |anodes|, j));
  }

  /** The position of pair `(i, j)` among `n` anodes per cathode, cathode-major. */
  function PairIndex(i: nat, n: nat, j: nat): nat {
    i * n + j
  }

  /** The picks of the search: one per iteration, and the overall one. */
  datatype Selection<C, A> = Selection(bests: seq<PairResult<C, A>>, best: PairResult<C, A>)

  /** `bests[t]` is what `min` picks from the results of pass `t`, for
      every pass so far. */
  predicate PassBests<C(==,!new), A(==,!new)>(pass: nat -> Result<seq<PairResult<C, A>>>,
                                              bests: seq<PairResult<C, A>>) {
    forall t :: 0 <= t < |bests| ==> pass(t).Ok? && IsFirstMin(pass(t).value, bests[t])
  }

  /** The loop over the iterations and the two `min` calls: each pass's
      results (or its exception), the first minimum of each, then the first
      minimum of those. */
  method SelectBest<C(==,!new), A(==,!new)>(pass: nat -> Result<seq<PairResult<C, A>>>, iterations: int)
    returns (r: Result<Selection<C, A>>)
    ensures iterations <= 0 ==> r == Err(EmptyMinimum)
    ensures 0 < iterations && pass(0).Err? ==> r == Err(pass(0).error)
    ensures 0 < iterations && pass(0) == Ok([]) ==> r == Err(EmptyMinimum)
    ensures r.Ok? <==> 0 < iterations && forall t :: 0 <= t < iterations ==> pass(t).Ok? && pass(t).value != []
    ensures r.Err? ==> r.error == EmptyMinimum || exists t :: 0 <= t < iterations && pass(t) == Err(r.error)
    ensures r.Ok? ==> |r.value.bests| == iterations && PassBests(pass, r.value.bests)
    ensures r.Ok? ==> IsFirstMin(r.value.bests, r.value.best)
    ensures r.Ok? ==> forall t, k ::
      (0 <= t < |r.value.bests| && pass(t).Ok? && 0 <= k < |pass(t).value|) ==>
      r.value.best.rmsd <= pass(t).value[k].rmsd
    ensures r.Ok? ==> exists t, k ::
      (0 <= t < |r.value.bests| && pass(t).Ok? && 0 <= k < |pass(t).value| && pass(t).value[k] == r.value.best)
  {
    var bests: seq<PairResult<C, A>> := [];
    var it := 0;
    while it < iterations
      invariant 0 <= it && (it == 0 || it <= iterations)
      invariant |bests| == it
      invariant PassBests(pass, bests)
      invariant 0 < it ==> pass(0).Ok? && pass(0).value != []
      invariant forall t :: 0 <= t < it ==> pass(t).Ok? && pass(t).value != []
    {
      var results := pass(it);
      if results.Err? {
        return Err(results.error);
      }
      var best := FirstMin(results.value);
      if best.Err? {
        return Err(EmptyMinimum);
      }
      bests := bests + [best.value];
      it := it + 1;
    }
    var overall := FirstMin(bests);
    if overall.Err? {
      return Err(EmptyMinimum);
    }
    var best := overall.value;
    forall t, k | 0 <= t < |bests| && pass(t).Ok? && 0 <= k < |pass(t).value|
      ensures best.rmsd <= pass(t).value[k].rmsd
    {
      assert IsFirstMin(pass(t).value, bests[t]);
    }
    var t :| 0 <= t < |bests| && bests[t] == best;
    var k :| 0 <= k < |pass(t).value| && pass(t).value[k] == bests[t];
    r := Ok(Selection(bests, best));
  }

  /** What a successful search picked: for each of the `iterations`
      passes the first minimum of its results, and the first minimum of
      those picks. */
  predicate Chosen<C(==,!new), A(==,!new)>(s: Setup, oracle: (nat, C, A) -> Params,
                                           cathodes: Dict<C, Dataset<C>>, anodes: Dict<A, Dataset<A>>,
                                           iterations: int, bests: seq<PairResult<C, A>>, best: PairResult<C, A>)
    requires OracleInBox(s.v, oracle)
  {
    && |bests| == iterations
    && (forall t :: 0 <= t < |bests| ==>
          Pass(s, oracle, t, cathodes, anodes).Ok? &&
          IsFirstMin(Pass(s, oracle, t, cathodes, anodes).value, bests[t]))
    && IsFirstMin(bests, best)
  }

  /** The first minimum is no greater than any element. */
  lemma FirstMinBelow<C(!new), A(!new)>(rs: seq<PairResult<C, A>>, x: PairResult<C, A>, k: nat)
    requires IsFirstMin(rs, x) && k < |rs|
    ensures x.rmsd <= rs[k].rmsd
  {
  }

  /** Where the first minimum sits. */
  lemma FirstMinAt<C(!new), A(!new)>(rs: seq<PairResult<C, A>>, x: PairResult<C, A>) returns (i: nat)
    requires IsFirstMin(rs, x)
    ensures i < |rs| && rs[i] == x
  {
    i :| 0 <= i < |rs| && rs[i] == x
      && (forall j :: 0 <= j < |rs| ==> x.rmsd <= rs[j].rmsd)
      && (forall j :: 0 <= j < i ==> x.rmsd < rs[j].rmsd);
  }

  /** The overall pick has an RMSD no greater than that of any result of
      any pass. */
  lemma BestOfAll<C(!new), A(!new)>(s: Setup, oracle: (nat, C, A) -> Params,
                                    cathodes: Dict<C, Dataset<C>>, anodes: Dict<A, Dataset<A>>,
                                    iterations: int, bests: seq<PairResult<C, A>>, best: PairResult<C, A>,
                                    t: nat, k: nat)
    requires OracleInBox(s.v, oracle)
    requires Chosen(s, oracle, cathodes, anodes, iterations, bests, best)
    requires t < iterations && Pass(s, oracle, t, cathodes, anodes).Ok?
    requires k < |Pass(s, oracle, t, cathodes, anodes).value|
    ensures best.rmsd <= Pass(s, oracle, t, cathodes, anodes).value[k].rmsd
  {
    var rs := Pass(s, oracle, t, cathodes, anodes).value;
    assert best.rmsd <= bests[t].rmsd by {
      FirstMinBelow(bests, best, t);
    }
    assert bests[t].rmsd <= rs[k].rmsd by {
      FirstMinBelow(rs, bests[t], k);
    }
  }

  /** The overall pick is a result of one of the passes. */
  lemma BestFromPass<C(!new), A(!new)>(s: Setup, oracle: (nat, C, A) -> Params,
                                       cathodes: Dict<C, Dataset<C>>, anodes: Dict<A, Dataset<A>>,
                                       iterations: int, bests: seq<PairResult<C, A>>, best: PairResult<C, A>)
    returns (t: nat, k: nat)
    requires OracleInBox(s.v, oracle)
    requires Chosen(s, oracle, cathodes, anodes, iterations, bests, best)
    ensures t < iterations && Pass(s, oracle, t, cathodes, anodes).Ok?
    ensures k < |Pass(s, oracle, t, cathodes, anodes).value|
    ensures Pass(s, oracle, t, cathodes, anodes).value[k] == best
  {
    t := FirstMinAt(bests, best);
    assert Pass(s, oracle, t, cathodes, anodes).Ok? &&
           IsFirstMin(Pass(s, oracle, t, cathodes, anodes).value, bests[t]);
    k := FirstMinAt(Pass(s, oracle, t, cathodes, anodes).value, bests[t]);
  }

  /** The iterations of the search: a pass per iteration over every
      cathode/anode pair, and the picks made from the passes. */
  method SearchPairs<C(==,!new), A(==,!new)>(s: Setup, oracle: (nat, C, A) -> Params,
                                             cathodes: Dict<C, Dataset<C>>, anodes: Dict<A, Dataset<A>>,
                                             iterations: int)
    returns (r: Result<Selection<C, A>>)
    requires OracleInBox(s.v, oracle)
    ensures iterations <= 0 || |cathodes| == 0 || |anodes| == 0 ==> r == Err(EmptyMinimum)
    ensures 0 < iterations && Pass(s, oracle, 0, cathodes, anodes).Err? ==>
      r == Err(Pass(s, oracle, 0, cathodes, anodes).error)
    ensures r.Ok? <==> Searchable(s, cathodes, anodes, iterations)
    ensures r.Ok? ==> Chosen(s, oracle, cathodes, anodes, iterations, r.value.bests, r.value.best)
  {
    var pass := (it: nat) => Pass(s, oracle, it, cathodes, anodes);
    forall t: nat
      ensures pass(t) == Pass(s, oracle, t, cathodes, anodes)
    {
    }
    PassesSucceed(s, oracle, cathodes, anodes, iterations, pass);
    r := SelectBest(pass, iterations);
    if r.Ok? {
      PassesChosen(s, oracle, cathodes, anodes, iterations, pass, r.value);
    }
  }

  /** The passes of a search all succeed, with results, exactly when the
      search is searchable; with no pair the first pass is empty. */
  lemma PassesSucceed<C(!new), A(!new)>(s: Setup, oracle: (nat, C, A) -> Params,
                                        cathodes: Dict<C, Dataset<C>>, anodes: Dict<A, Dataset<A>>,
                                        iterations: int, pass: nat -> Result<seq<PairResult<C, A>>>)
    requires OracleInBox(s.v, oracle)
    requires forall t: nat :: pass(t) == Pass(s, oracle, t, cathodes, anodes)
    ensures |cathodes| == 0 || |anodes| == 0 ==> pass(0) == Ok([])
    ensures (0 < iterations && forall t :: 0 <= t < iterations ==> pass(t).Ok? && pass(t).value != [])
            <==> Searchable(s, cathodes, anodes, iterations)
  {
    if |cathodes| == 0 || |anodes| == 0 {
      EmptyPass(s, oracle, 0, cathodes, anodes);
    } else {
      forall t: nat
        ensures pass(t).Ok? <==> Scorable(s, cathodes, anodes)
        ensures pass(t).Ok? ==> pass(t).value != []
      {
        PassSucceeds(s, oracle, t, cathodes, anodes);
      }
      if 0 < iterations && !Scorable(s, cathodes, anodes) {
        assert !pass(0).Ok?;
      }
    }
  }

  /** A selection made from the passes is what the search chose. */
  lemma PassesChosen<C(!new), A(!new)>(s: Setup, oracle: (nat, C, A) -> Params,
                                       cathodes: Dict<C, Dataset<C>>, anodes: Dict<A, Dataset<A>>,
                                       iterations: int, pass: nat -> Result<seq<PairResult<C, A>>>,
                                       sel: Selection<C, A>)
    requires OracleInBox(s.v, oracle)
    requires forall t: nat :: pass(t) == Pass(s, oracle, t, cathodes, anodes)
    requires |sel.bests| == iterations && PassBests(pass, sel.bests) && IsFirstMin(sel.bests, sel.best)
    ensures Chosen(s, oracle, cathodes, anodes, iterations, sel.bests, sel.best)
  {
  }

  /** A strictly increasing curve of 2 to 2002 samples. The loaders only
      reverse a strictly decreasing x, so a loaded curve need not be one. */
  predicate WellSampled(c: Curve) {
    StrictlyIncreasing(c.xs) && 2 <= |c.xs| <= 2 * GridPoints
  }

  /** Every curve of a dictionary is well sampled. */
  predicate AllWellSampled<K>(d: Dict<K, Dataset<K>>) {
    forall i :: 0 <= i < |d| ==> WellSampled(d[i].value.curve)
  }

  /** The search has something to pick: at least one iteration, at least
      one pair, and every pair scorable. */
  predicate Searchable<C, A>(s: Setup, cathodes: Dict<C, Dataset<C>>, anodes: Dict<A, Dataset<A>>,
                             iterations: int) {
    0 < iterations && |cathodes| > 0 && |anodes| > 0 && Scorable(s, cathodes, anodes)
  }

  /** The optimizer never proposes a zero stretch factor. */
  ghost predicate PositiveStretches<C(!new), A(!new)>(oracle: (nat, C, A) -> Params) {
    forall it, c, a :: 0.0 < AnodeStretch(oracle(it, c, a)) && 0.0 < CathodeStretch(oracle(it, c, a))
  }

  /** The whole search over `iterations` passes, then the reconstruction of
      the winner. */
  method Run<C(==,!new), A(==,!new)>(s: Setup, oracle: (nat, C, A) -> Params,
                           cathodes: Dict<C, Dataset<C>>, anodes: Dict<A, Dataset<A>>, iterations: int)
    returns (r: Result<Report<C, A>>)
    requires OracleInBox(s.v, oracle)
    requires DistinctKeys(cathodes) && DistinctKeys(anodes)
    ensures iterations <= 0 || |cathodes| == 0 || |anodes| == 0 ==> r == Err(EmptyMinimum)
    ensures 0 < iterations && Pass(s, oracle, 0, cathodes, anodes).Err? ==>
      r == Err(Pass(s, oracle, 0, cathodes, anodes).error)
    ensures r.Ok? ==> Chosen(s, oracle, cathodes, anodes, iterations, r.value.bests, r.value.best)
    ensures r.Ok? ==> Drawn(s.v, r.value.best, cathodes, anodes)
    ensures r.Ok? ==> r.value.outcome.Reconstructed?
    ensures r.Ok? ==> Rebuild(s, r.value.best, cathodes, anodes) == Ok(r.value.outcome)
    ensures r.Ok? ==> Searchable(s, cathodes, anodes, iterations)
    ensures Searchable(s, cathodes, anodes, iterations) ==>
      r.Ok? || r.error == NegativeSampleCount || r.error == ZeroSpan
    ensures Searchable(s, cathodes, anodes, iterations) && s.v.PointStretch? ==> r.Ok?
    ensures (Searchable(s, cathodes, anodes, iterations) && AllWellSampled(cathodes) && AllWellSampled(anodes)
             && (s.v.AxisStretch? ==> PositiveStretches(oracle))) ==> r.Ok?
  {
    var selection := SearchPairs(s, oracle, cathodes, anodes, iterations);
    if selection.Err? {
      return Err(selection.error);
    }
    var winner := selection.value.best;
    WinnerRebuilds(s, oracle, cathodes, anodes, iterations, selection.value);
    var outcome := Rebuild(s, winner, cathodes, anodes);
    if outcome.Err? {
      return Err(outcome.error);
    }
    r := Ok(Report(selection.value.bests, winner, outcome.value));
  }

  /** The guarded block for the pair a search chose from dictionaries with
      distinct keys: the lookup finds the pair again, and its
      reconstruction fails at most as `WinnerReconstructs` allows. */
  lemma WinnerRebuilds<C(!new), A(!new)>(s: Setup, oracle: (nat, C, A) -> Params,
                                         cathodes: Dict<C, Dataset<C>>, anodes: Dict<A, Dataset<A>>,
                                         iterations: int, sel: Selection<C, A>)
    requires OracleInBox(s.v, oracle)
    requires DistinctKeys(cathodes) && DistinctKeys(anodes)
    requires Searchable(s, cathodes, anodes, iterations)
    requires Chosen(s, oracle, cathodes, anodes, iterations, sel.bests, sel.best)
    ensures Drawn(s.v, sel.best, cathodes, anodes)
    ensures var r := Rebuild(s, sel.best, cathodes, anodes);
      && (r.Ok? ==> r.value.Reconstructed?)
      && (r.Ok? || r.error == NegativeSampleCount || r.error == ZeroSpan)
      && (s.v.PointStretch? ==> r.Ok?)
      && ((AllWellSampled(cathodes) && AllWellSampled(anodes) && (s.v.AxisStretch? ==> PositiveStretches(oracle)))
          ==> r.Ok?)
  {
    var winner := sel.best;
    var t, k := BestFromPass(s, oracle, cathodes, anodes, iterations, sel.bests, winner);
    PassDrawn(s, oracle, t, cathodes, anodes, k);
    var i :| 0 <= i < |cathodes| && cathodes[i].key == winner.cathodeId;
    var j :| 0 <= j < |anodes| && anodes[j].key == winner.anodeId;
    RebuildScoredPair(s, winner, cathodes, anodes, i, j);
    WinnerReconstructs(s, oracle, t, winner, cathodes[i].value.curve, anodes[j].value.curve);
  }

  /** The winner's reconstruction can only fail on the sample count or a
      zero-width window; with the point stretch it cannot fail, and
      well-sampled curves with positive stretch factors always reconstruct. */
  lemma WinnerReconstructs<C(!new), A(!new)>(s: Setup, oracle: (nat, C, A) -> Params, t: nat,
                                             winner: PairResult<C, A>, cathode: Curve, anode: Curve)
    requires OracleInBox(s.v, oracle)
    requires winner.params == oracle(t, winner.cathodeId, winner.anodeId)
    requires |cathode.xs| > 0 && |anode.xs| > 0
    ensures var r := Reconstruct(s.num, s.v, winner.params, anode, cathode);
      && (r.Ok? || r.error == NegativeSampleCount || r.error == ZeroSpan)
      && (s.v.PointStretch? ==> r.Ok?)
      && ((WellSampled(anode) && WellSampled(cathode) && (s.v.AxisStretch? ==> PositiveStretches(oracle))) ==> r.Ok?)
  {
    var p := winner.params;
    assert InBox(s.v, p);
    if WellSampled(anode) && WellSampled(cathode) && (s.v.AxisStretch? ==> PositiveStretches(oracle)) {
      if s.v.AxisStretch? {
        assert 0.0 < AnodeStretch(oracle(t, winner.cathodeId, winner.anodeId));
        assert 0.0 < CathodeStretch(oracle(t, winner.cathodeId, winner.anodeId));
      }
      ReconstructSucceeds(s.num, s.v, p, anode, cathode);
    }
  }
}
