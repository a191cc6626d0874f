/** The lock time of a transaction from what its inputs require (BIP 370, "Determining Lock Time"). */
module LockTime {
  import opened Python

  datatype Locks = Locks(time: Option<nat>, height: Option<nat>)

  /** The input can be locked by time only, or by height only. */
  predicate OnlyTime(x: Locks) { x.time.Some? && x.height.None? }

  predicate OnlyHeight(x: Locks) { x.time.None? && x.height.Some? }

  predicate SomeOnlyTime(xs: seq<Locks>) {
    exists i :: 0 <= i < |xs| && OnlyTime(xs[i])
  }

  predicate SomeOnlyHeight(xs: seq<Locks>) {
    exists i :: 0 <= i < |xs| && OnlyHeight(xs[i])
  }

  function OrZero(x: Option<nat>): nat {
    if x.Some? then x.value else 0
  }

  function MaxTime(xs: seq<Locks>): nat {
    if xs == [] then 0 else Max(MaxTime(xs[..|xs| - 1]), OrZero(xs[|xs| - 1].time))
  }

  function MaxHeight(xs: seq<Locks>): nat {
    if xs == [] then 0 else Max(MaxHeight(xs[..|xs| - 1]), OrZero(xs[|xs| - 1].height))
  }

  /**
   * The rule of the standard: no lock time if the inputs disagree on the kind; otherwise the greatest
   * requirement of a kind all inputs allow, by height if possible; without any, the fallback.
   */
  function Determine(xs: seq<Locks>, fallback: Option<nat>): Result<nat> {
    if SomeOnlyTime(xs) && SomeOnlyHeight(xs) then Err(PSBTSerializationError)
    else if !SomeOnlyTime(xs) && MaxHeight(xs) > 0 then Ok(MaxHeight(xs))
    else if !SomeOnlyHeight(xs) && MaxTime(xs) > 0 then Ok(MaxTime(xs))
    else Ok(OrZero(fallback))
  }

  lemma Snoc(xs: seq<Locks>, i: nat)
    requires i < |xs|
    ensures MaxTime(xs[..i + 1]) == Max(MaxTime(xs[..i]), OrZero(xs[i].time))
    ensures MaxHeight(xs[..i + 1]) == Max(MaxHeight(xs[..i]), OrZero(xs[i].height))
    ensures SomeOnlyTime(xs[..i + 1]) <==> SomeOnlyTime(xs[..i]) || OnlyTime(xs[i])
    ensures SomeOnlyHeight(xs[..i + 1]) <==> SomeOnlyHeight(xs[..i]) || OnlyHeight(xs[i])
  {
    var ys := xs[..i + 1];
    assert ys[..i] == xs[..i] && ys[i] == xs[i];
    forall j | 0 <= j < i ensures ys[j] == xs[..i][j] {}
  }

  lemma Within(xs: seq<Locks>, i: nat)
    requires i <= |xs|
    ensures SomeOnlyTime(xs[..i]) ==> SomeOnlyTime(xs)
    ensures SomeOnlyHeight(xs[..i]) ==> SomeOnlyHeight(xs)
  {
    forall j | 0 <= j < i ensures xs[..i][j] == xs[j] {}
  }

  /** compute_lock_time: a kind that some input rules out is given up for good. */
  method ComputeLockTime(inputs: seq<Locks>, fallback: Option<nat>) returns (r: Result<nat>)
    ensures r == Determine(inputs, fallback)
  {
    var timeLock: Option<nat>, heightLock: Option<nat> := Some(0), Some(0);
    for i := 0 to |inputs|
      invariant timeLock == if SomeOnlyHeight(inputs[..i]) then None else Some(MaxTime(inputs[..i]))
      invariant heightLock == if SomeOnlyTime(inputs[..i]) then None else Some(MaxHeight(inputs[..i]))
      invariant !(SomeOnlyTime(inputs[..i]) && SomeOnlyHeight(inputs[..i]))
    {
      var x := inputs[i];
      Snoc(inputs, i);
      Within(inputs, i + 1);
      if x.time.Some? && x.height.None? {
        heightLock := None;
        if timeLock == None {
          return Err(PSBTSerializationError);
        }
      } else if x.time.None? && x.height.Some? {
        timeLock := None;
        if heightLock == None {
          return Err(PSBTSerializationError);
        }
      }
      if x.time.Some? && timeLock.Some? {
        timeLock := Some(Max(timeLock.value, x.time.value));
      }
      if x.height.Some? && heightLock.Some? {
        heightLock := Some(Max(heightLock.value, x.height.value));
      }
    }
    assert inputs[..|inputs|] == inputs;
    if heightLock.Some? && heightLock.value > 0 {
      return Ok(heightLock.value);
    }
    if timeLock.Some? && timeLock.value > 0 {
      return Ok(timeLock.value);
    }
    return Ok(OrZero(fallback));
  }

  // ------------------------------------------------------------ the result is a maximum, in any order

  lemma {:induction false} MaxTimeIsMax(xs: seq<Locks>)
    ensures forall i :: 0 <= i < |xs| ==> OrZero(xs[i].time) <= MaxTime(xs)
    ensures MaxTime(xs) == 0 || exists i :: 0 <= i < |xs| && xs[i].time == Some(MaxTime(xs))
  {
    if xs != [] {
      var init := xs[..|xs| - 1];
      MaxTimeIsMax(init);
      forall i | 0 <= i < |xs| ensures OrZero(xs[i].time) <= MaxTime(xs) {
        if i < |init| { assert init[i] == xs[i]; }
      }
      if MaxTime(xs) == MaxTime(init) && MaxTime(init) != 0 {
        var i :| 0 <= i < |init| && init[i].time == Some(MaxTime(init));
        assert xs[i] == init[i];
      }
    }
  }

  lemma {:induction false} MaxHeightIsMax(xs: seq<Locks>)
    ensures forall i :: 0 <= i < |xs| ==> OrZero(xs[i].height) <= MaxHeight(xs)
    ensures MaxHeight(xs) == 0 || exists i :: 0 <= i < |xs| && xs[i].height == Some(MaxHeight(xs))
  {
    if xs != [] {
      var init := xs[..|xs| - 1];
      MaxHeightIsMax(init);
      forall i | 0 <= i < |xs| ensures OrZero(xs[i].height) <= MaxHeight(xs) {
        if i < |init| { assert init[i] == xs[i]; }
      }
      if MaxHeight(xs) == MaxHeight(init) && MaxHeight(init) != 0 {
        var i :| 0 <= i < |init| && init[i].height == Some(MaxHeight(init));
        assert xs[i] == init[i];
      }
    }
  }

  lemma SameElements(xs: seq<Locks>, ys: seq<Locks>, i: nat)
    requires multiset(xs) == multiset(ys) && i < |xs|
    ensures xs[i] in ys
  {
    assert xs[i] in multiset(xs);
  }

  lemma NotAbove(xs: seq<Locks>, ys: seq<Locks>)
    requires multiset(xs) == multiset(ys)
    ensures MaxTime(xs) <= MaxTime(ys) && MaxHeight(xs) <= MaxHeight(ys)
    ensures (SomeOnlyTime(xs) ==> SomeOnlyTime(ys)) && (SomeOnlyHeight(xs) ==> SomeOnlyHeight(ys))
  {
    MaxTimeIsMax(xs);
    MaxTimeIsMax(ys);
    MaxHeightIsMax(xs);
    MaxHeightIsMax(ys);
    forall i | 0 <= i < |xs| ensures exists j :: 0 <= j < |ys| && ys[j] == xs[i] {
      SameElements(xs, ys, i);
    }
  }

  /** The lock time does not depend on the order of the inputs. */
  lemma AnyOrder(xs: seq<Locks>, ys: seq<Locks>, fallback: Option<nat>)
    requires multiset(xs) == multiset(ys)
    ensures Determine(xs, fallback) == Determine(ys, fallback)
  {
    NotAbove(xs, ys);
    NotAbove(ys, xs);
  }

  /**
   * What the answer means: it fails exactly if one input allows only time and another only height;
   * otherwise every requirement of the chosen kind is met, and met exactly by some input.
   */
  lemma LockTimeMeaning(xs: seq<Locks>, fallback: Option<nat>)
    ensures Determine(xs, fallback).Err? <==> SomeOnlyTime(xs) && SomeOnlyHeight(xs)
    ensures Determine(xs, fallback).Ok? ==>
              var lock := Determine(xs, fallback).value;
              || (!SomeOnlyTime(xs) && (forall i :: 0 <= i < |xs| ==> OrZero(xs[i].height) <= lock)
                  && exists i :: 0 <= i < |xs| && xs[i].height == Some(lock))
              || (!SomeOnlyHeight(xs) && (forall i :: 0 <= i < |xs| ==> OrZero(xs[i].time) <= lock)
                  && (exists i :: 0 <= i < |xs| && xs[i].time == Some(lock))
                  && (SomeOnlyTime(xs) || forall i :: 0 <= i < |xs| ==> OrZero(xs[i].height) == 0))
              || (lock == OrZero(fallback)
                  && forall i :: 0 <= i < |xs| ==>
                       (!SomeOnlyTime(xs) ==> OrZero(xs[i].height) == 0) && (!SomeOnlyHeight(xs) ==> OrZero(xs[i].time) == 0))
  {
    MaxTimeIsMax(xs);
    MaxHeightIsMax(xs);
  }

  /** Inputs that require nothing leave the fallback. */
  lemma NoRequirements(xs: seq<Locks>, fallback: Option<nat>)
    requires forall i :: 0 <= i < |xs| ==> xs[i] == Locks(None, None)
    ensures Determine(xs, fallback) == Ok(OrZero(fallback))
  {
    MaxTimeIsMax(xs);
    MaxHeightIsMax(xs);
  }
}
