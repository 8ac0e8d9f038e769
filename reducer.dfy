/** SVMReducer: collects every record of the single "data" group, sizes and
    zeroes the weights, runs the training loop and emits "weight0" ..
    "weight<d-1>" and "bias". Double arithmetic and comparison are left
    abstract (FloatOps); what is modelled is the control flow, the indexing,
    the exceptions and the shape of the output. */
module Reducer {
  import opened Wrappers
  import opened Java
  import opened RecordCodec

  /** IEEE-754 double arithmetic as Java performs it, supplied by the caller.
      `less(a, b)` is Java's `a < b`. */
  datatype FloatOps = FloatOps(
    add: (Double, Double) -> Double,
    sub: (Double, Double) -> Double,
    mul: (Double, Double) -> Double,
    less: (Double, Double) -> bool)

  const ZERO: Double := 0                                // +0.0
  const LEARNING_RATE: Double := 0x3f84_7ae1_47ae_147b   // 0.01
  const TOLERANCE: Double := 0x3f50_624d_d2f1_a9fc       // 0.001
  const NEG_TOLERANCE: Double := 0xbf50_624d_d2f1_a9fc   // -0.001
  const MAX_ITERATIONS: int := 100

  /** The running sum of the loop at lines 86-88: starting from acc, add
      ws[k]*xs[k] for k = 0, 1, ... in turn. */
  function SumProducts(ops: FloatOps, acc: Double, ws: seq<Double>, xs: seq<Double>): Double
    requires |ws| == |xs|
    decreases |ws|
  {
    if ws == [] then acc else SumProducts(ops, ops.add(acc, ops.mul(ws[0], xs[0])), ws[1..], xs[1..])
  }

  lemma {:induction false} SumProductsSnoc(ops: FloatOps, acc: Double, ws: seq<Double>, xs: seq<Double>, a: Double, c: Double)
    requires |ws| == |xs|
    ensures SumProducts(ops, acc, ws + [a], xs + [c]) == ops.add(SumProducts(ops, acc, ws, xs), ops.mul(a, c))
    decreases |ws|
  {
    if ws != [] {
      assert (ws + [a])[1..] == ws[1..] + [a];
      assert (xs + [c])[1..] == xs[1..] + [c];
      SumProductsSnoc(ops, ops.add(acc, ops.mul(ws[0], xs[0])), ws[1..], xs[1..], a, c);
    }
  }

  /** w[0]*x[0] + ... + w[n-1]*x[n-1], accumulated left to right from +0.0:
      the loop's running sum over the first n weights and features. */
  function DotPrefix(ops: FloatOps, w: seq<Double>, x: seq<Double>, n: nat): (r: Double)
    requires n <= |w| && n <= |x|
    ensures r == SumProducts(ops, ZERO, w[..n], x[..n])
  {
    if n == 0 then ZERO
    else
      assert w[..n] == w[..n - 1] + [w[n - 1]];
      assert x[..n] == x[..n - 1] + [x[n - 1]];
      SumProductsSnoc(ops, ZERO, w[..n - 1], x[..n - 1], w[n - 1], x[n - 1]);
      ops.add(DotPrefix(ops, w, x, n - 1), ops.mul(w[n - 1], x[n - 1]))
  }

  /** classify(w, b, x): the loop's sum over the first weights.length
      features, plus the bias. Nothing past that prefix is read. */
  function Margin(ops: FloatOps, w: seq<Double>, b: Double, x: seq<Double>): (r: Double)
    requires |w| <= |x|
    ensures r == ops.add(SumProducts(ops, ZERO, w, x[..|w|]), b)
  {
    assert w[..|w|] == w;
    ops.add(DotPrefix(ops, w, x, |w|), b)
  }

  lemma {:induction false} DotPrefixReadsPrefix(ops: FloatOps, w: seq<Double>, x: seq<Double>, x': seq<Double>, n: nat)
    requires n <= |w| && n <= |x| && n <= |x'|
    requires forall k :: 0 <= k < n ==> x[k] == x'[k]
    ensures DotPrefix(ops, w, x, n) == DotPrefix(ops, w, x', n)
  {
    if n > 0 {
      DotPrefixReadsPrefix(ops, w, x, x', n - 1);
    }
  }

  /** classify reads the features only below weights.length: feature vectors
      that agree there classify alike, whatever follows. */
  lemma MarginReadsOnlyWeightsLength(ops: FloatOps, w: seq<Double>, b: Double, x: seq<Double>, x': seq<Double>)
    requires |w| <= |x| && |w| <= |x'|
    requires x[..|w|] == x'[..|w|]
    ensures Margin(ops, w, b, x) == Margin(ops, w, b, x')
  {
    assert forall k :: 0 <= k < |w| ==> x[k] == x[..|w|][k] && x'[k] == x'[..|w|][k];
    DotPrefixReadsPrefix(ops, w, x, x', |w|);
  }

  /** SVMReducer.classify: throws when features is shorter than weights,
      since the loop indexes features up to weights.length. */
  method Classify(ops: FloatOps, weights: array<Double>, bias: Double, features: seq<Double>)
      returns (r: Result<Double, Exception>)
    ensures |features| < weights.Length ==> r == Failure(IndexOutOfBoundsException)
    ensures weights.Length <= |features| ==> r == Success(Margin(ops, weights[..], bias, features))
  {
    var result := ZERO;
    for i := 0 to weights.Length
      invariant i <= |features|
      invariant result == DotPrefix(ops, weights[..], features, i)
    {
      if i >= |features| {
        return Failure(IndexOutOfBoundsException);
      }
      result := ops.add(result, ops.mul(weights[i], features[i]));
    }
    result := ops.add(result, bias);
    r := Success(result);
  }

  /** The update of lines 67-69 from index j on: each weights[j] grows by
      LEARNING_RATE * (y - classify(weights, bias, x)) * x[j], where classify
      sees the weights as updated so far. */
  function UpdateFrom(ops: FloatOps, w: seq<Double>, b: Double, x: seq<Double>, y: Double, j: nat): (r: seq<Double>)
    requires j <= |w| <= |x|
    ensures |r| == |w|
    ensures r[..j] == w[..j]
    decreases |w| - j
  {
    if j == |w| then w
    else
      var step := ops.mul(ops.mul(LEARNING_RATE, ops.sub(y, Margin(ops, w, b, x))), x[j]);
      UpdateFrom(ops, w[j := ops.add(w[j], step)], b, x, y, j + 1)
  }

  /** The state the inner loop over the records carries. */
  datatype PassState = PassState(weights: seq<Double>, bias: Double, changed: int)

  /** Lines 62-72 for record i. classify throws when the record has fewer
      features than there are weights; the eligibility test indexes the
      weights by the record's position i and throws for i >= weights.length
      whenever it gets as far as reading weights[i]. */
  function Step(ops: FloatOps, C: Double, xs: seq<seq<Double>>, ys: seq<Double>, i: nat, s: PassState): (r: Result<PassState, Exception>)
    requires i < |xs| == |ys|
    ensures r.Success? ==> |r.value.weights| == |s.weights|
    ensures r.Success? ==> r.value.changed == s.changed || r.value.changed == s.changed + 1
    ensures r.Success? && r.value.changed == s.changed ==> r.value == s
  {
    var x := xs[i];
    var y := ys[i];
    if |x| < |s.weights| then Failure(IndexOutOfBoundsException)
    else
      var ye := ops.mul(y, ops.sub(y, Margin(ops, s.weights, s.bias, x)));
      var below := ops.less(ye, NEG_TOLERANCE);
      var above := ops.less(TOLERANCE, ye);
      if (below || above) && i >= |s.weights| then Failure(IndexOutOfBoundsException)
      else if (below && ops.less(s.weights[i], C)) || (above && ops.less(ZERO, s.weights[i])) then
        Success(PassState(UpdateFrom(ops, s.weights, s.bias, x, y, 0),
                          ops.add(s.bias, ops.mul(LEARNING_RATE, y)),
                          s.changed + 1))
      else
        Success(s)
  }

  /** The for loop of lines 61-73 from record i on. */
  function PassFrom(ops: FloatOps, C: Double, xs: seq<seq<Double>>, ys: seq<Double>, i: nat, s: PassState): (r: Result<PassState, Exception>)
    requires i <= |xs| == |ys|
    ensures r.Success? ==> |r.value.weights| == |s.weights|
    ensures r.Success? ==> s.changed <= r.value.changed <= s.changed + (|xs| - i)
    ensures r.Success? && r.value.changed == s.changed ==> r.value == s
    decreases |xs| - i
  {
    if i == |xs| then Success(s)
    else
      match Step(ops, C, xs, ys, i, s)
      case Failure(e) => Failure(e)
      case Success(s') => PassFrom(ops, C, xs, ys, i + 1, s')
  }

  /** The variables of the training loop. */
  datatype TrainState = TrainState(weights: seq<Double>, bias: Double, iter: int, numChanged: int)

  predicate Guard(st: TrainState) {
    st.iter < MAX_ITERATIONS && st.numChanged > 0
  }

  /** The while loop of lines 59-75 from state st. */
  function TrainFrom(ops: FloatOps, C: Double, xs: seq<seq<Double>>, ys: seq<Double>, st: TrainState): (r: Result<TrainState, Exception>)
    requires |xs| == |ys|
    ensures r.Success? ==> !Guard(r.value)
    ensures r.Success? ==> |r.value.weights| == |st.weights|
    ensures r.Success? ==> st.iter <= r.value.iter
    ensures r.Success? && st.iter <= MAX_ITERATIONS ==> r.value.iter <= MAX_ITERATIONS
    ensures r.Success? && Guard(st) ==> r.value.iter > st.iter
    decreases MAX_ITERATIONS - st.iter
  {
    if !Guard(st) then Success(st)
    else
      match PassFrom(ops, C, xs, ys, 0, PassState(st.weights, st.bias, 0))
      case Failure(e) => Failure(e)
      case Success(p) => TrainFrom(ops, C, xs, ys, TrainState(p.weights, p.bias, st.iter + 1, p.changed))
  }

  /** One turn of the loop from a state where its guard holds. */
  lemma TrainFromUnfold(ops: FloatOps, C: Double, xs: seq<seq<Double>>, ys: seq<Double>, st: TrainState)
    requires |xs| == |ys| && Guard(st)
    ensures var p := PassFrom(ops, C, xs, ys, 0, PassState(st.weights, st.bias, 0));
      TrainFrom(ops, C, xs, ys, st)
        == if p.Failure? then Failure(p.error)
           else TrainFrom(ops, C, xs, ys, TrainState(p.value.weights, p.value.bias, st.iter + 1, p.value.changed))
  {
  }

  /** As written, the loop is entered with numChanged == 0, so its body never
      runs: the weights, the bias and iter come out as they went in. */
  lemma TrainingNeverRuns(ops: FloatOps, C: Double, xs: seq<seq<Double>>, ys: seq<Double>, w: seq<Double>, b: Double)
    requires |xs| == |ys|
    ensures TrainFrom(ops, C, xs, ys, TrainState(w, b, 0, 0)) == Success(TrainState(w, b, 0, 0))
  {
  }

  /** Entered with a positive counter, the loop runs at least one pass and at
      most MAX_ITERATIONS, and stops on a pass that changed nothing or on the
      iteration cap. */
  lemma TrainingRunsAtLeastOnce(ops: FloatOps, C: Double, xs: seq<seq<Double>>, ys: seq<Double>, w: seq<Double>, b: Double)
    requires |xs| == |ys|
    ensures var r := TrainFrom(ops, C, xs, ys, TrainState(w, b, 0, 1));
      r.Success? ==>
        && 1 <= r.value.iter <= MAX_ITERATIONS
        && (r.value.numChanged == 0 || r.value.iter == MAX_ITERATIONS)
        && |r.value.weights| == |w|
  {
    var r := TrainFrom(ops, C, xs, ys, TrainState(w, b, 0, 1));
    if r.Success? {
      NumChangedNonNegative(ops, C, xs, ys, TrainState(w, b, 0, 1));
    }
  }

  /** The change counter never goes negative once it starts at zero or more. */
  lemma {:induction false} NumChangedNonNegative(ops: FloatOps, C: Double, xs: seq<seq<Double>>, ys: seq<Double>, st: TrainState)
    requires |xs| == |ys| && st.numChanged >= 0
    ensures TrainFrom(ops, C, xs, ys, st).Success? ==> TrainFrom(ops, C, xs, ys, st).value.numChanged >= 0
    decreases MAX_ITERATIONS - st.iter
  {
    if Guard(st) {
      match PassFrom(ops, C, xs, ys, 0, PassState(st.weights, st.bias, 0))
      case Failure(_) =>
      case Success(p) =>
        NumChangedNonNegative(ops, C, xs, ys, TrainState(p.weights, p.bias, st.iter + 1, p.changed));
    }
  }

  /** Lines 67-69 on the weights array. */
  method Update(ops: FloatOps, weights: array<Double>, bias: Double, features: seq<Double>, y: Double)
    requires weights.Length <= |features|
    modifies weights
    ensures weights[..] == UpdateFrom(ops, old(weights[..]), bias, features, y, 0)
  {
    for j := 0 to weights.Length
      invariant UpdateFrom(ops, weights[..], bias, features, y, j) == UpdateFrom(ops, old(weights[..]), bias, features, y, 0)
    {
      var c := Classify(ops, weights, bias, features);
      weights[j] := ops.add(weights[j], ops.mul(ops.mul(LEARNING_RATE, ops.sub(y, c.value)), features[j]));
    }
  }

  /** Lines 62-72 for record i on the weights array. */
  method RunStep(ops: FloatOps, C: Double, xs: seq<seq<Double>>, ys: seq<Double>, i: nat,
                 weights: array<Double>, bias: Double, numChanged: int)
      returns (r: Result<(Double, int), Exception>)
    requires i < |xs| == |ys|
    modifies weights
    ensures var s := Step(ops, C, xs, ys, i, PassState(old(weights[..]), bias, numChanged));
      && (r.Success? <==> s.Success?)
      && (r.Failure? ==> r.error == s.error)
      && (r.Success? ==> s.value == PassState(weights[..], r.value.0, r.value.1))
    ensures r.Failure? ==> weights[..] == old(weights[..])
  {
    var features := xs[i];
    var y := ys[i];
    var c := Classify(ops, weights, bias, features);
    if c.Failure? {
      return Failure(c.error);
    }
    var ye := ops.mul(y, ops.sub(y, c.value));
    var below := ops.less(ye, NEG_TOLERANCE);
    var above := ops.less(TOLERANCE, ye);
    if (below || above) && i >= weights.Length {
      return Failure(IndexOutOfBoundsException);
    }
    if (below && ops.less(weights[i], C)) || (above && ops.less(ZERO, weights[i])) {
      Update(ops, weights, bias, features, y);
      r := Success((ops.add(bias, ops.mul(LEARNING_RATE, y)), numChanged + 1));
    } else {
      r := Success((bias, numChanged));
    }
  }

  /** One pass of the for loop of lines 60-73: numChanged restarts at 0. */
  method RunPass(ops: FloatOps, C: Double, xs: seq<seq<Double>>, ys: seq<Double>,
                 weights: array<Double>, bias0: Double)
      returns (r: Result<PassState, Exception>)
    requires |xs| == |ys|
    modifies weights
    ensures r == PassFrom(ops, C, xs, ys, 0, PassState(old(weights[..]), bias0, 0))
    ensures r.Success? ==> weights[..] == r.value.weights
  {
    var bias, numChanged := bias0, 0;
    for i := 0 to |xs|
      invariant PassFrom(ops, C, xs, ys, i, PassState(weights[..], bias, numChanged))
             == PassFrom(ops, C, xs, ys, 0, PassState(old(weights[..]), bias0, 0))
    {
      var s := RunStep(ops, C, xs, ys, i, weights, bias, numChanged);
      if s.Failure? {
        return Failure(s.error);
      }
      bias, numChanged := s.value.0, s.value.1;
    }
    r := Success(PassState(weights[..], bias, numChanged));
  }

  /** The while loop of lines 59-75, entered in the state its locals have
      just before it: the weights array, bias, numChanged and iter. */
  method Train(ops: FloatOps, C: Double, xs: seq<seq<Double>>, ys: seq<Double>,
               weights: array<Double>, bias0: Double, numChanged0: int, iter0: int)
      returns (r: Result<TrainState, Exception>)
    requires |xs| == |ys|
    modifies weights
    ensures r == TrainFrom(ops, C, xs, ys, TrainState(old(weights[..]), bias0, iter0, numChanged0))
    ensures r.Success? ==> weights[..] == r.value.weights
  {
    ghost var goal := TrainFrom(ops, C, xs, ys, TrainState(weights[..], bias0, iter0, numChanged0));
    var bias, numChanged, iter := bias0, numChanged0, iter0;
    while iter < MAX_ITERATIONS && numChanged > 0
      invariant TrainFrom(ops, C, xs, ys, TrainState(weights[..], bias, iter, numChanged)) == goal
      decreases MAX_ITERATIONS - iter
    {
      ghost var before := TrainState(weights[..], bias, iter, numChanged);
      var p := RunPass(ops, C, xs, ys, weights, bias);
      TrainFromUnfold(ops, C, xs, ys, before);
      if p.Failure? {
        return Failure(p.error);
      }
      bias, numChanged := p.value.bias, p.value.changed;
      iter := iter + 1;
      ghost var after := TrainState(weights[..], bias, iter, numChanged);
      assert after == TrainState(p.value.weights, p.value.bias, before.iter + 1, p.value.changed);
    }
    r := Success(TrainState(weights[..], bias, iter, numChanged));
  }

  /** The key line 79 writes for weight i: "weight" followed by the decimal
      digits of i, without a leading zero, which read back as i. */
  function WeightKey(i: nat): (k: string)
    ensures |k| > 6 && k[..6] == "weight"
    ensures k[6] == '0' ==> i == 0
    ensures forall c :: 6 <= c < |k| ==> '0' <= k[c] <= '9'
    ensures ParseDecimal(k[6..]) == i
  {
    ParseDecimalOfDecimalString(i);
    assert ("weight" + DecimalString(i))[6..] == DecimalString(i);
    "weight" + DecimalString(i)
  }

  /** Lines 78-81: one pair per weight in index order, then the bias. */
  function Emit(weights: seq<Double>, bias: Double): (out: seq<(string, Double)>)
    ensures |out| == |weights| + 1
  {
    seq(|weights|, i requires 0 <= i < |weights| => (WeightKey(i), weights[i])) + [("bias", bias)]
  }

  /** The value of the first pair with the given key. */
  function Lookup(out: seq<(string, Double)>, key: string): Option<Double> {
    if out == [] then None
    else if out[0].0 == key then Some(out[0].1)
    else Lookup(out[1..], key)
  }

  lemma WeightKeyInjective(i: nat, j: nat)
    requires WeightKey(i) == WeightKey(j)
    ensures i == j
  {
  }

  /** Every emitted key is distinct. */
  lemma EmitKeysDistinct(weights: seq<Double>, bias: Double)
    ensures var out := Emit(weights, bias);
      forall i, j :: 0 <= i < j < |out| ==> out[i].0 != out[j].0
  {
    var out := Emit(weights, bias);
    forall i, j | 0 <= i < j < |out|
      ensures out[i].0 != out[j].0
    {
      if j < |weights| {
        if out[i].0 == out[j].0 {
          WeightKeyInjective(i, j);
        }
      } else {
        assert out[i].0[0] == 'w';
      }
    }
  }

  lemma {:induction false} LookupFirst(out: seq<(string, Double)>, k: nat)
    requires k < |out|
    requires forall j :: 0 <= j < k ==> out[j].0 != out[k].0
    ensures Lookup(out, out[k].0) == Some(out[k].1)
  {
    if k > 0 {
      LookupFirst(out[1..], k - 1);
    }
  }

  /** Reading the output back by key gives each weight and the bias. */
  lemma EmitLookup(weights: seq<Double>, bias: Double)
    ensures forall i :: 0 <= i < |weights| ==> Lookup(Emit(weights, bias), WeightKey(i)) == Some(weights[i])
    ensures Lookup(Emit(weights, bias), "bias") == Some(bias)
  {
    var out := Emit(weights, bias);
    EmitKeysDistinct(weights, bias);
    forall i | 0 <= i < |weights|
      ensures Lookup(out, WeightKey(i)) == Some(weights[i])
    {
      LookupFirst(out, i);
    }
    LookupFirst(out, |weights|);
  }

  /** The record features and labels as reduce collects them, in order. */
  function FeatureList(values: seq<Record>): seq<seq<Double>> {
    seq(|values|, i requires 0 <= i < |values| => values[i].features)
  }

  function LabelList(values: seq<Record>): seq<Double> {
    seq(|values|, i requires 0 <= i < |values| => values[i].classLabel)
  }

  /** Lines 39-82 with the loop entered in the given numChanged state. */
  method ReduceWith(ops: FloatOps, C: Double, values: seq<Record>, numChanged0: int)
      returns (r: Result<seq<(string, Double)>, Exception>)
    ensures values == [] ==> r == Failure(IndexOutOfBoundsException)
    ensures values != [] ==>
      var t := TrainFrom(ops, C, FeatureList(values), LabelList(values),
                         TrainState(seq(|values[0].features|, _ => ZERO), ZERO, 0, numChanged0));
      && (t.Failure? ==> r == Failure(t.error))
      && (t.Success? ==> r == Success(Emit(t.value.weights, t.value.bias)))
  {
    var featureList, labelList := Gather(values);
    if |featureList| == 0 {
      return Failure(IndexOutOfBoundsException);
    }
    var numFeatures := |featureList[0]|;
    var weights := ZeroWeights(numFeatures);
    var bias := ZERO;
    var t := Train(ops, C, featureList, labelList, weights, bias, numChanged0, 0);
    if t.Failure? {
      return Failure(t.error);
    }
    var out := Output(weights, t.value.bias);
    r := Success(out);
  }

  /** Lines 42-47: the features and labels of every record, in order. */
  method Gather(values: seq<Record>) returns (featureList: seq<seq<Double>>, labelList: seq<Double>)
    ensures featureList == FeatureList(values) && labelList == LabelList(values)
  {
    featureList, labelList := [], [];
    for k := 0 to |values|
      invariant featureList == FeatureList(values[..k])
      invariant labelList == LabelList(values[..k])
    {
      featureList := featureList + [values[k].features];
      labelList := labelList + [values[k].classLabel];
    }
    assert values[..|values|] == values;
  }

  /** Lines 51-55: a fresh weights array of n zeros. */
  method ZeroWeights(n: nat) returns (weights: array<Double>)
    ensures fresh(weights) && weights[..] == seq(n, _ => ZERO)
  {
    weights := new Double[n];
    for i := 0 to n
      invariant forall j :: 0 <= j < i ==> weights[j] == ZERO
    {
      weights[i] := ZERO;
    }
  }

  /** Lines 78-81: the pairs context.write receives, in order. */
  method Output(weights: array<Double>, bias: Double) returns (out: seq<(string, Double)>)
    ensures out == Emit(weights[..], bias)
  {
    out := [];
    for i := 0 to weights.Length
      invariant |out| == i
      invariant forall j :: 0 <= j < i ==> out[j] == (WeightKey(j), weights[j])
    {
      out := out + [(WeightKey(i), weights[i])];
    }
    out := out + [("bias", bias)];
  }

  /** SVMReducer.reduce as written: numChanged starts at 0 (line 57). Every
      non-empty batch yields exactly weight0 .. weight<d-1>, all +0.0, then a
      +0.0 bias, d being the first record's feature count; an empty batch
      throws at featureList.get(0). */
  method Reduce(ops: FloatOps, C: Double, values: seq<Record>) returns (r: Result<seq<(string, Double)>, Exception>)
    ensures values == [] ==> r == Failure(IndexOutOfBoundsException)
    ensures values != [] ==>
      var d := |values[0].features|;
      && r.Success?
      && |r.value| == d + 1
      && (forall i :: 0 <= i < d ==> r.value[i] == (WeightKey(i), ZERO))
      && r.value[d] == ("bias", ZERO)
  {
    r := ReduceWith(ops, C, values, 0);
  }

  /** reduce with the loop run at least once: the counter starts positive, so
      the first pass runs unconditionally and the counter only decides
      whether to run another. */
  method ReduceAtLeastOnePass(ops: FloatOps, C: Double, values: seq<Record>)
      returns (r: Result<seq<(string, Double)>, Exception>)
    ensures values == [] ==> r == Failure(IndexOutOfBoundsException)
    ensures values != [] ==>
      var t := TrainFrom(ops, C, FeatureList(values), LabelList(values),
                         TrainState(seq(|values[0].features|, _ => ZERO), ZERO, 0, 1));
      && (t.Failure? ==> r == Failure(t.error))
      && (t.Success? ==>
            && 1 <= t.value.iter <= MAX_ITERATIONS
            && r == Success(Emit(t.value.weights, t.value.bias))
            && |r.value| == |values[0].features| + 1)
  {
    r := ReduceWith(ops, C, values, 1);
    if values != [] {
      TrainingRunsAtLeastOnce(ops, C, FeatureList(values), LabelList(values), seq(|values[0].features|, _ => ZERO), ZERO);
    }
  }
}
