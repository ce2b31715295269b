/**
 * The shape every analyzer shares: walk a sequence (of matches, of parameter
 * entries), run a check on each element, and append whatever messages the
 * check returns, in order.
 */
module Collections {

  /** The messages of `check` on each element of `xs`, concatenated in order. */
  function Collect<T>(xs: seq<T>, check: T -> seq<string>): seq<string>
    decreases |xs|
  {
    if xs == [] then [] else Collect(xs[..|xs| - 1], check) + check(xs[|xs| - 1])
  }

  /** The loop step: one more element appends its messages. */
  lemma CollectStep<T>(xs: seq<T>, check: T -> seq<string>, k: nat)
    requires k < |xs|
    ensures Collect(xs[..k + 1], check) == Collect(xs[..k], check) + check(xs[k])
  {
    assert xs[..k + 1][..k] == xs[..k];
  }

  /** A message is collected exactly when the check of some element produced it. */
  lemma {:induction false} CollectMembership<T>(xs: seq<T>, check: T -> seq<string>, x: string)
    ensures x in Collect(xs, check) <==> exists k | 0 <= k < |xs| :: x in check(xs[k])
    decreases |xs|
  {
    if xs != [] {
      var n := |xs| - 1;
      CollectMembership(xs[..n], check, x);
      if x in Collect(xs[..n], check) {
        var k :| 0 <= k < n && x in check(xs[..n][k]);
        assert xs[..n][k] == xs[k];
      }
      if exists k | 0 <= k < |xs| :: x in check(xs[k]) {
        var k :| 0 <= k < |xs| && x in check(xs[k]);
        if k < n { assert xs[..n][k] == xs[k]; }
      }
    }
  }

  /** Checks that report at most once per element report at most once per element in total. */
  lemma {:induction false} CollectAtMostOne<T>(xs: seq<T>, check: T -> seq<string>)
    requires forall k | 0 <= k < |xs| :: |check(xs[k])| <= 1
    ensures |Collect(xs, check)| <= |xs|
    decreases |xs|
  {
    if xs != [] {
      var n := |xs| - 1;
      assert forall k | 0 <= k < n :: xs[..n][k] == xs[k];
      CollectAtMostOne(xs[..n], check);
    }
  }

  /** Checks that each report exactly one message give one message per element, in element order. */
  lemma {:induction false} CollectEach<T>(xs: seq<T>, check: T -> seq<string>)
    requires forall k | 0 <= k < |xs| :: |check(xs[k])| == 1
    ensures |Collect(xs, check)| == |xs|
    ensures forall k | 0 <= k < |xs| :: Collect(xs, check)[k] == check(xs[k])[0]
    decreases |xs|
  {
    if xs != [] {
      var n := |xs| - 1;
      assert forall k | 0 <= k < n :: xs[..n][k] == xs[k];
      CollectEach(xs[..n], check);
    }
  }

  /** Checks that report nothing collect nothing. */
  lemma {:induction false} CollectNone<T>(xs: seq<T>, check: T -> seq<string>)
    requires forall k | 0 <= k < |xs| :: check(xs[k]) == []
    ensures Collect(xs, check) == []
    decreases |xs|
  {
    if xs != [] {
      var n := |xs| - 1;
      assert forall k | 0 <= k < n :: xs[..n][k] == xs[k];
      CollectNone(xs[..n], check);
    }
  }
}
