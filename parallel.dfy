/** The merge step of the two fan-out helpers of parallel.go, over the result slots
    as they stand once every task has finished: slot i holds what task i returned,
    so the merge depends on slot order and never on completion order. */
module Parallel {
  import opened Errx

  /** The non-nil results of ParallelRun's tasks, in slot order. */
  function Failures(slots: seq<ErrX?>): (r: seq<ErrX>)
    ensures |r| <= |slots|
  {
    if slots == [] then []
    else Failures(slots[..|slots| - 1]) + (if slots[|slots| - 1] == null then [] else [slots[|slots| - 1]])
  }

  /** Every failure is a task's own result, and every non-nil result is a failure. */
  lemma {:induction false} FailuresIn(slots: seq<ErrX?>)
    ensures forall i :: 0 <= i < |Failures(slots)| ==> Failures(slots)[i] in slots
    ensures forall i :: 0 <= i < |slots| && slots[i] != null ==> slots[i] in Failures(slots)
    decreases |slots|
  {
    if slots != [] {
      var init := slots[..|slots| - 1];
      FailuresIn(init);
      assert forall x :: x in init ==> x in slots;
      assert forall i :: 0 <= i < |init| ==> init[i] == slots[i];
    }
  }

  /** There is no failure exactly when every slot is nil. */
  lemma {:induction false} FailuresEmpty(slots: seq<ErrX?>)
    ensures Failures(slots) == [] <==> forall i :: 0 <= i < |slots| ==> slots[i] == null
    decreases |slots|
  {
    if slots != [] {
      var init := slots[..|slots| - 1];
      FailuresEmpty(init);
      assert forall i :: 0 <= i < |init| ==> init[i] == slots[i];
    }
  }

  /** The first failure is the result in the lowest non-nil slot. */
  lemma {:induction false} FailuresFirst(slots: seq<ErrX?>)
    requires Failures(slots) != []
    ensures exists k :: 0 <= k < |slots| && slots[k] == Failures(slots)[0] && forall j :: 0 <= j < k ==> slots[j] == null
    decreases |slots|
  {
    var init := slots[..|slots| - 1];
    assert forall i :: 0 <= i < |init| ==> init[i] == slots[i];
    if Failures(init) != [] {
      FailuresFirst(init);
      var k :| 0 <= k < |init| && init[k] == Failures(init)[0] && forall j :: 0 <= j < k ==> init[j] == null;
      assert slots[k] == Failures(slots)[0];
    } else {
      FailuresEmpty(init);
      assert slots[|slots| - 1] == Failures(slots)[0];
    }
  }

  lemma {:induction false} FailuresConcat(a: seq<ErrX?>, b: seq<ErrX?>)
    ensures Failures(a + b) == Failures(a) + Failures(b)
    decreases |b|
  {
    if b == [] {
      assert a + b == a;
    } else {
      assert (a + b)[..|a + b| - 1] == a + b[..|b| - 1];
      FailuresConcat(a, b[..|b| - 1]);
    }
  }

  /** The failures of the slots are those of a prefix followed by those of the rest,
      so the first failure of a prefix is the first failure of the whole. */
  lemma FailuresSplit(slots: seq<ErrX?>, i: nat)
    requires i <= |slots|
    ensures Failures(slots) == Failures(slots[..i]) + Failures(slots[i..])
  {
    assert slots == slots[..i] + slots[i..];
    FailuresConcat(slots[..i], slots[i..]);
  }

  /** One more slot adds its result to the failures when it is not nil. */
  lemma FailuresStep(slots: seq<ErrX?>, i: nat)
    requires i < |slots|
    ensures Failures(slots[..i + 1]) == Failures(slots[..i]) + (if slots[i] == null then [] else [slots[i]])
  {
    assert slots[..i + 1][..i] == slots[..i];
  }

  /** The *ErrX results as error values. */
  function Boxes(xs: seq<ErrX>): (r: seq<Err>)
    ensures |r| == |xs| && forall i :: 0 <= i < |xs| ==> r[i] == Boxed(xs[i])
  {
    seq(|xs|, i requires 0 <= i < |xs| => Boxed(xs[i]))
  }

  lemma BoxesTail(xs: seq<ErrX>, x: ErrX)
    requires xs != []
    ensures Boxes((xs + [x])[1..]) == Boxes(xs[1..]) + [Boxed(x)]
  {
    assert (xs + [x])[1..] == xs[1..] + [x];
  }

  /** One step of the merge: a first failure becomes the root, a later one is
      appended to the root's causes. */
  method Merge(err: ErrX?, x: ErrX) returns (r: ErrX)
    modifies err
    ensures err == null ==> r == x
    ensures err != null ==> r == err && err.errors == old(err.errors) + [Boxed(x)]
    ensures err != null ==> err.TagsOf() == old(err.TagsOf()) && err.caller == old(err.caller)
  {
    if err == null {
      r := x;
    } else {
      NonNilSingle(Boxed(x));
      r := WithErr(err, [Boxed(x)]);
    }
  }

  /** The first non-nil result becomes the root, the very object its task returned;
      each later non-nil result is appended to the root's causes in slot order, after
      the causes it already had. Nil when every task succeeded. */
  method ParallelRun(slots: seq<ErrX?>) returns (err: ErrX?)
    modifies if Failures(slots) == [] then {} else {Failures(slots)[0]}
    ensures err == null <==> forall i :: 0 <= i < |slots| ==> slots[i] == null
    ensures err != null ==> exists k :: 0 <= k < |slots| && slots[k] == err && forall j :: 0 <= j < k ==> slots[j] == null
    ensures err == null <==> Failures(slots) == []
    ensures err != null ==> err == Failures(slots)[0]
    ensures err != null ==> err.errors == old(err.errors) + Boxes(Failures(slots)[1..])
    ensures err != null ==> |err.errors| == |old(err.errors)| + |Failures(slots)| - 1
    ensures err != null ==> err.TagsOf() == old(err.TagsOf()) && err.caller == old(err.caller)
  {
    FailuresIn(slots);
    ghost var root: ErrX? := if Failures(slots) == [] then null else Failures(slots)[0];
    ghost var done: seq<ErrX> := [];
    err := null;
    for i := 0 to |slots|
      invariant done == Failures(slots[..i])
      invariant done != [] ==> Failures(slots) != [] && done[0] == Failures(slots)[0]
      invariant err == null <==> done == []
      invariant err != null ==> err == root
      invariant root != null ==> old(allocated(root))
      invariant root != null ==> root.errors == old(root.errors) + (if done == [] then [] else Boxes(done[1..]))
      invariant root != null ==> root.TagsOf() == old(root.TagsOf()) && root.caller == old(root.caller)
    {
      FailuresSplit(slots, i + 1);
      FailuresStep(slots, i);
      ghost var next := Failures(slots[..i + 1]);
      if slots[i] == null {
        continue;
      }
      if err != null {
        BoxesTail(done, slots[i]);
      }
      err := Merge(err, slots[i]);
      done := next;
    }
    assert slots[..|slots|] == slots;
    FailuresEmpty(slots);
    if err != null {
      FailuresFirst(slots);
    }
  }

  /** Every failure is joined under one new ErrX with no tags: nil when every task
      succeeded, otherwise a fresh ErrX whose single cause is errors.Join of the
      non-nil results in slot order. No task's *ErrX is ever reused as the root,
      because the loop's reuse branch runs only once a root exists, and none does. */
  method ParallelRun2(slots: seq<Err>) returns (err: ErrX?)
    ensures err == null <==> forall i :: 0 <= i < |slots| ==> slots[i] == NilErr
    ensures err == null <==> NonNil(slots) == []
    ensures err != null ==> fresh(err) && err.errors == [Joined(NonNil(slots))]
    ensures err != null ==> err.TagsOf() == Tags("", "", "") && err.caller == ""
    ensures err != null ==> forall i :: 0 <= i < |slots| ==> slots[i] != Boxed(err)
  {
    var errs := slots;
    var hasError := false;
    err := null;
    for i := 0 to |errs|
      invariant err == null && errs == slots
      invariant hasError <==> exists j :: 0 <= j < i && slots[j] != NilErr
    {
      if errs[i] == NilErr {
        continue;
      }
      hasError := true;
      if err != null {
        // the reuse of an *ErrX result as root: err is still nil here
        assert false;
      }
    }
    NonNilEmpty(slots);
    if !hasError {
      return null;
    }
    if err == null {
      err := NewErrX(Join(errs), []);
    } else {
      // appending the remaining results to a reused root: no root was ever chosen
      assert false;
    }
  }
}
