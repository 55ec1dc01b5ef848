/**
 * The predictor fan-out of the benchmark driver: every selected `Params`
 * gets one freshly created predictor followed by `instance - 1` clones of
 * it (none when every model is forced to a single instance), and the
 * params that produced each predictor are recorded in a parallel list.
 */
module InstancePool {
  import opened Types

  /**
   * A `shared_ptr<Predictor>` handle, with the inference library abstracted
   * away. `Created(serial, params)` is the predictor returned by the
   * `serial`-th call of CreatePredictor; `Cloned(origin, copy)` is the
   * `copy`-th result of `origin->Clone()`. Distinct values stand for
   * distinct predictor objects.
   */
  datatype Predictor =
    | Created(serial: nat, params: Params)
    | Cloned(origin: Predictor, copy: nat)

  /** The params a predictor was configured from. */
  function ParamsOf(p: Predictor): Params {
    match p
    case Created(_, params) => params
    case Cloned(origin, _) => ParamsOf(origin)
  }

  /** Which CreatePredictor call a predictor descends from. */
  function SerialOf(p: Predictor): nat {
    match p
    case Created(serial, _) => serial
    case Cloned(origin, _) => SerialOf(origin)
  }

  /** `CreatePredictor(params)`, the `serial`-th time it is called. */
  function CreatePredictor(serial: nat, params: Params): (p: Predictor)
    ensures ParamsOf(p) == params && SerialOf(p) == serial && !p.Cloned?
  {
    Created(serial, params)
  }

  /** `predictor->Clone()`, the `copy`-th time it is called on `predictor`. */
  function Clone(predictor: Predictor, copy: nat): (p: Predictor)
    ensures ParamsOf(p) == ParamsOf(predictor) && SerialOf(p) == SerialOf(predictor)
  {
    Cloned(predictor, copy)
  }

  /**
   * How many predictors one params gets: its `instance` count, except that
   * a count below 2 or the single-instance switch gives exactly one.
   */
  function Instances(params: Params, singleInstance: bool): nat {
    if singleInstance || params.instance <= 1 then 1 else params.instance
  }

  /**
   * The predictors made for the `serial`-th params: the created one, then
   * clones 1, 2, ... of it.
   */
  function Block(serial: nat, params: Params, singleInstance: bool): seq<Predictor> {
    var created := Created(serial, params);
    [created] + seq(Instances(params, singleInstance) - 1, j requires 0 <= j => Cloned(created, j + 1))
  }

  /** The whole predictor list: the blocks of all params, in list order. */
  function FanOut(ps: seq<Params>, singleInstance: bool): seq<Predictor> {
    if ps == [] then []
    else FanOut(ps[..|ps| - 1], singleInstance) + Block(|ps| - 1, ps[|ps| - 1], singleInstance)
  }

  /** The sum over the params of their instance counts. */
  function Total(ps: seq<Params>, singleInstance: bool): nat {
    if ps == [] then 0
    else Total(ps[..|ps| - 1], singleInstance) + Instances(ps[|ps| - 1], singleInstance)
  }

  /** Where the block of the `i`-th params starts in the predictor list. */
  function Offset(ps: seq<Params>, i: nat, singleInstance: bool): nat
    requires i <= |ps|
  {
    Total(ps[..i], singleInstance)
  }

  /**
   * The creation loop of the driver. `predictorList` and `tmpModelParams`
   * grow together, so the k-th params is the one the k-th predictor was
   * configured from.
   */
  method CreatePredictors(testModelParams: seq<Params>, singleInstance: bool)
    returns (predictorList: seq<Predictor>, tmpModelParams: seq<Params>)
    ensures predictorList == FanOut(testModelParams, singleInstance)
    ensures |tmpModelParams| == |predictorList|
    ensures forall k :: 0 <= k < |predictorList| ==> tmpModelParams[k] == ParamsOf(predictorList[k])
  {
    predictorList, tmpModelParams := [], [];
    var i := 0;
    while i < |testModelParams|
      invariant 0 <= i <= |testModelParams|
      invariant predictorList == FanOut(testModelParams[..i], singleInstance)
      invariant |tmpModelParams| == |predictorList|
      invariant forall k :: 0 <= k < |predictorList| ==> tmpModelParams[k] == ParamsOf(predictorList[k])
    {
      var param := testModelParams[i];
      var predictor := CreatePredictor(i, param);
      ghost var before := predictorList;
      predictorList := predictorList + [predictor];
      tmpModelParams := tmpModelParams + [param];
      var j: int32 := 1;
      while j < param.instance && !singleInstance
        invariant 1 <= j <= Instances(param, singleInstance)
        invariant predictorList == before + Block(i, param, singleInstance)[..j]
        invariant |tmpModelParams| == |predictorList|
        invariant forall k :: 0 <= k < |predictorList| ==> tmpModelParams[k] == ParamsOf(predictorList[k])
      {
        BlockGrows(i, param, singleInstance, j);
        predictorList := predictorList + [Clone(predictor, j)];
        tmpModelParams := tmpModelParams + [param];
        j := j + 1;
      }
      assert Block(i, param, singleInstance)[..j] == Block(i, param, singleInstance);
      FanOutStep(testModelParams, i, singleInstance);
      i := i + 1;
    }
    assert testModelParams[..i] == testModelParams;
  }

  /** The `j`-th clone follows the first `j` predictors of a block. */
  lemma BlockGrows(serial: nat, params: Params, singleInstance: bool, j: nat)
    requires 1 <= j < Instances(params, singleInstance)
    ensures Block(serial, params, singleInstance)[..j + 1] ==
      Block(serial, params, singleInstance)[..j] + [Cloned(Created(serial, params), j)]
  {
    var block := Block(serial, params, singleInstance);
    assert block[j] == Cloned(Created(serial, params), j);
  }

  /** One more params appends its block to the predictor list. */
  lemma FanOutStep(ps: seq<Params>, i: nat, singleInstance: bool)
    requires i < |ps|
    ensures FanOut(ps[..i + 1], singleInstance) == FanOut(ps[..i], singleInstance) + Block(i, ps[i], singleInstance)
  {
    assert ps[..i + 1][..i] == ps[..i];
  }

  /** The predictor list has as many entries as the instance counts add up to. */
  lemma {:induction false} FanOutLength(ps: seq<Params>, singleInstance: bool)
    ensures |FanOut(ps, singleInstance)| == Total(ps, singleInstance)
  {
    if ps != [] {
      FanOutLength(ps[..|ps| - 1], singleInstance);
    }
  }

  /** The predictors of a prefix of the params are a prefix of the list. */
  lemma {:induction false} FanOutPrefix(ps: seq<Params>, m: nat, singleInstance: bool)
    requires m <= |ps|
    ensures FanOut(ps[..m], singleInstance) <= FanOut(ps, singleInstance)
    decreases |ps| - m
  {
    if m < |ps| {
      var init := ps[..|ps| - 1];
      assert init[..m] == ps[..m];
      FanOutPrefix(init, m, singleInstance);
    } else {
      assert ps[..m] == ps;
    }
  }

  /**
   * The predictors of the `i`-th params sit together, right after those of
   * the params before it: first the freshly created one, then exactly
   * `Instances - 1` clones of that same predictor.
   */
  lemma FanOutBlock(ps: seq<Params>, i: nat, singleInstance: bool)
    requires i < |ps|
    ensures Offset(ps, i + 1, singleInstance) == Offset(ps, i, singleInstance) + Instances(ps[i], singleInstance)
    ensures Offset(ps, i + 1, singleInstance) <= |FanOut(ps, singleInstance)|
    ensures FanOut(ps, singleInstance)[Offset(ps, i, singleInstance)] == Created(i, ps[i])
    ensures forall j :: 0 < j < Instances(ps[i], singleInstance) ==>
      FanOut(ps, singleInstance)[Offset(ps, i, singleInstance) + j] == Cloned(Created(i, ps[i]), j)
  {
    var pre := ps[..i + 1];
    assert pre[..i] == ps[..i];
    assert pre[..|pre| - 1] == ps[..i];
    FanOutPrefix(ps, i + 1, singleInstance);
    FanOutLength(ps[..i], singleInstance);
    FanOutLength(pre, singleInstance);
    FanOutLength(ps, singleInstance);
    assert FanOut(pre, singleInstance) == FanOut(ps[..i], singleInstance) + Block(i, ps[i], singleInstance);
  }

  /** Block starts do not decrease along the params list. */
  lemma {:induction false} OffsetMonotone(ps: seq<Params>, i: nat, j: nat, singleInstance: bool)
    requires i <= j <= |ps|
    ensures Offset(ps, i, singleInstance) <= Offset(ps, j, singleInstance)
    decreases j
  {
    if i < j {
      assert ps[..j][..j - 1] == ps[..j - 1];
      OffsetMonotone(ps, i, j - 1, singleInstance);
    }
  }

  /**
   * Every predictor descends from one of the params and lies inside that
   * params' block; its recorded params are that params.
   */
  lemma {:induction false} FanOutEntry(ps: seq<Params>, singleInstance: bool, k: nat)
    requires k < |FanOut(ps, singleInstance)|
    ensures SerialOf(FanOut(ps, singleInstance)[k]) < |ps|
    ensures ParamsOf(FanOut(ps, singleInstance)[k]) == ps[SerialOf(FanOut(ps, singleInstance)[k])]
    ensures Offset(ps, SerialOf(FanOut(ps, singleInstance)[k]), singleInstance) <= k
    ensures k < Offset(ps, SerialOf(FanOut(ps, singleInstance)[k]) + 1, singleInstance)
  {
    var init := ps[..|ps| - 1];
    FanOutLength(init, singleInstance);
    if k < |FanOut(init, singleInstance)| {
      FanOutEntry(init, singleInstance, k);
      var i := SerialOf(FanOut(init, singleInstance)[k]);
      OffsetOfInit(ps, i, singleInstance);
      OffsetOfInit(ps, i + 1, singleInstance);
    } else {
      OffsetOfInit(ps, |ps| - 1, singleInstance);
      FanOutLast(ps, singleInstance, k);
    }
  }

  /** Block starts up to the last params are the same without it. */
  lemma OffsetOfInit(ps: seq<Params>, i: nat, singleInstance: bool)
    requires i < |ps|
    ensures Offset(ps[..|ps| - 1], i, singleInstance) == Offset(ps, i, singleInstance)
  {
    assert ps[..|ps| - 1][..i] == ps[..i];
  }

  /** The entries after the blocks of all but the last params form its block. */
  lemma FanOutLast(ps: seq<Params>, singleInstance: bool, k: nat)
    requires ps != [] && Offset(ps, |ps| - 1, singleInstance) <= k < |FanOut(ps, singleInstance)|
    ensures SerialOf(FanOut(ps, singleInstance)[k]) == |ps| - 1
    ensures ParamsOf(FanOut(ps, singleInstance)[k]) == ps[|ps| - 1]
    ensures k < Offset(ps, |ps|, singleInstance)
  {
    var n := |ps|;
    FanOutBlock(ps, n - 1, singleInstance);
    FanOutLength(ps, singleInstance);
    assert ps[..n] == ps;
  }

  /**
   * The predictors that descend from the `i`-th params are exactly the
   * entries of its block, and there are one of them when the single-instance
   * switch is set or its `instance` is at most 1, and `instance` otherwise.
   */
  lemma BlockCount(ps: seq<Params>, singleInstance: bool, i: nat)
    requires i < |ps|
    ensures forall k :: 0 <= k < |FanOut(ps, singleInstance)| ==>
      (SerialOf(FanOut(ps, singleInstance)[k]) == i <==>
       Offset(ps, i, singleInstance) <= k < Offset(ps, i + 1, singleInstance))
    ensures Offset(ps, i + 1, singleInstance) - Offset(ps, i, singleInstance) ==
      if singleInstance || ps[i].instance <= 1 then 1 else ps[i].instance as int
  {
    assert ps[..i + 1][..i] == ps[..i];
    var fan := FanOut(ps, singleInstance);
    forall k | 0 <= k < |fan|
      ensures SerialOf(fan[k]) == i <==>
        Offset(ps, i, singleInstance) <= k < Offset(ps, i + 1, singleInstance)
    {
      FanOutEntry(ps, singleInstance, k);
      var j := SerialOf(fan[k]);
      if j < i {
        OffsetMonotone(ps, j + 1, i, singleInstance);
      } else if j > i {
        OffsetMonotone(ps, i + 1, j, singleInstance);
      }
    }
  }

  /**
   * Params appear in list order: a later predictor never descends from an
   * earlier params, so the predictors of one params are contiguous.
   */
  lemma FanOutOrdered(ps: seq<Params>, singleInstance: bool, k1: nat, k2: nat)
    requires k1 <= k2 < |FanOut(ps, singleInstance)|
    ensures SerialOf(FanOut(ps, singleInstance)[k1]) <= SerialOf(FanOut(ps, singleInstance)[k2])
  {
    var fan := FanOut(ps, singleInstance);
    FanOutEntry(ps, singleInstance, k1);
    FanOutEntry(ps, singleInstance, k2);
    var a, b := SerialOf(fan[k1]), SerialOf(fan[k2]);
    if a > b {
      OffsetMonotone(ps, b + 1, a, singleInstance);
    }
  }

  /** No predictor appears twice: every instance is its own object. */
  lemma FanOutDistinct(ps: seq<Params>, singleInstance: bool, k1: nat, k2: nat)
    requires k1 < k2 < |FanOut(ps, singleInstance)|
    ensures FanOut(ps, singleInstance)[k1] != FanOut(ps, singleInstance)[k2]
  {
    var fan := FanOut(ps, singleInstance);
    FanOutEntry(ps, singleInstance, k1);
    FanOutEntry(ps, singleInstance, k2);
    var a, b := SerialOf(fan[k1]), SerialOf(fan[k2]);
    if a == b {
      FanOutBlock(ps, a, singleInstance);
      var o := Offset(ps, a, singleInstance);
      assert fan[k2] == Cloned(Created(a, ps[a]), k2 - o);
      if k1 != o {
        assert fan[k1] == Cloned(Created(a, ps[a]), k1 - o);
      }
    }
  }

  /** With the single-instance switch every params gets only its created predictor. */
  lemma {:induction false} FanOutSingle(ps: seq<Params>)
    ensures FanOut(ps, true) == seq(|ps|, i requires 0 <= i < |ps| => Created(i, ps[i]))
    ensures Total(ps, true) == |ps|
  {
    if ps != [] {
      var init := ps[..|ps| - 1];
      FanOutSingle(init);
    }
  }
}
