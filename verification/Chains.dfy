/** Calls that answer one stage after the other: which answers a state machine that retries makes use of. */
module Chains {

  /** Whether call number `k` answers the stage that follows the calls in the sequence. */
  type Server = (seq<nat>, nat) -> bool

  predicate Increasing(c: seq<nat>, n: nat) {
    && (forall i, j :: 0 <= i < j < |c| ==> c[i] < c[j])
    && (forall i :: 0 <= i < |c| ==> c[i] < n)
  }

  /** The calls among the first `n` that a machine makes use of: at each stage the first that answers it. */
  function Track(serves: Server, n: nat): (c: seq<nat>)
    ensures Increasing(c, n)
  {
    if n == 0 then []
    else
      var c := Track(serves, n - 1);
      if serves(c, n - 1) then c + [n - 1] else c
  }

  /** The calls after the first `i` of the chain and before call `k`. */
  predicate Between(c: seq<nat>, i: nat, k: nat)
    requires i <= |c|
  {
    i == 0 || c[i - 1] < k
  }

  /** Each call answers its stage, and no earlier one could have. */
  ghost predicate Prompt(serves: Server, c: seq<nat>, n: nat) {
    && Increasing(c, n)
    && (forall i :: 0 <= i < |c| ==> serves(c[..i], c[i]))
    && (forall i, k :: 0 <= i < |c| && 0 <= k < c[i] && Between(c, i, k) ==> !serves(c[..i], k))
  }

  lemma PromptPrefix(serves: Server, c: seq<nat>, n: nat, m: nat)
    requires Prompt(serves, c, n) && c != [] && m <= n && (|c| > 1 ==> c[|c| - 2] < m)
    ensures Prompt(serves, c[..|c| - 1], m)
  {
    var d := c[..|c| - 1];
    assert forall i :: 0 <= i <= |d| ==> d[..i] == c[..i];
    forall i, k | 0 <= i < |d| && 0 <= k < d[i] && Between(d, i, k) ensures !serves(d[..i], k) {
      assert Between(c, i, k);
    }
  }

  lemma PromptExtends(serves: Server, c: seq<nat>, n: nat)
    requires Prompt(serves, c, n) && serves(c, n) && Exhausted(serves, c, n)
    ensures Prompt(serves, c + [n], n + 1)
  {
    var d := c + [n];
    assert forall i :: 0 <= i <= |c| ==> d[..i] == c[..i] && c[..|c|] == c;
    forall i, k | 0 <= i < |d| && 0 <= k < d[i] && Between(d, i, k) ensures !serves(d[..i], k) {
      assert Between(c, i, k);
    }
  }

  /** No call before `n` answers the stage after the chain. */
  ghost predicate Exhausted(serves: Server, c: seq<nat>, n: nat) {
    forall k :: 0 <= k < n && Between(c, |c|, k) ==> !serves(c, k)
  }

  lemma {:induction false} TrackIsPrompt(serves: Server, n: nat)
    ensures Prompt(serves, Track(serves, n), n) && Exhausted(serves, Track(serves, n), n)
  {
    if n > 0 {
      TrackIsPrompt(serves, n - 1);
      var c := Track(serves, n - 1);
      assert Track(serves, n) == if serves(c, n - 1) then c + [n - 1] else c;
      if serves(c, n - 1) {
        PromptExtends(serves, c, n - 1);
        NothingAfter(serves, c, n - 1);
      } else {
        PromptLater(serves, c, n - 1);
      }
    }
  }

  lemma NothingAfter(serves: Server, c: seq<nat>, n: nat)
    ensures Exhausted(serves, c + [n], n + 1)
  {}

  lemma PromptLater(serves: Server, c: seq<nat>, n: nat)
    requires Prompt(serves, c, n) && Exhausted(serves, c, n) && !serves(c, n)
    ensures Prompt(serves, c, n + 1) && Exhausted(serves, c, n + 1)
  {}

  /** `k` is the first call after the chain that answers the next stage. */
  ghost predicate First(serves: Server, c: seq<nat>, k: nat) {
    Between(c, |c|, k) && serves(c, k) && forall j :: 0 <= j < k && Between(c, |c|, j) ==> !serves(c, j)
  }

  lemma FirstIsUnique(serves: Server, c: seq<nat>, a: nat, b: nat)
    requires First(serves, c, a) && First(serves, c, b)
    ensures a == b
  {}

  lemma PromptIsFirst(serves: Server, c: seq<nat>, n: nat, i: nat)
    requires Prompt(serves, c, n) && i < |c|
    ensures First(serves, c[..i], c[i])
  {
    assert i > 0 ==> c[..i][i - 1] == c[i - 1];
    forall j | 0 <= j < c[i] && Between(c[..i], i, j) ensures !serves(c[..i], j) {
      assert Between(c, i, j);
    }
  }

  /** If all but the last call are tracked, so is the last. */
  lemma LastIsTracked(serves: Server, c: seq<nat>, n: nat)
    requires Prompt(serves, c, n + 1) && c != [] && c[|c| - 1] == n && c[..|c| - 1] <= Track(serves, n)
    ensures c == Track(serves, n + 1)
  {
    var last, t := |c| - 1, Track(serves, n);
    TrackIsPrompt(serves, n);
    PromptIsFirst(serves, c, n + 1, last);
    if |t| > last {
      PromptIsFirst(serves, t, n, last);
      assert t[..last] == c[..last];
      FirstIsUnique(serves, c[..last], t[last], n);
    }
    assert t == c[..last] && c == t + [n];
  }

  lemma PromptEarlier(serves: Server, c: seq<nat>, n: nat)
    requires Prompt(serves, c, n + 1) && c != [] && c[|c| - 1] < n
    ensures Prompt(serves, c, n)
  {}

  lemma TrackGrows(serves: Server, n: nat)
    ensures Track(serves, n) <= Track(serves, n + 1)
  {}

  /** A prompt chain is the one the machine follows. */
  lemma {:induction false} PromptIsTracked(serves: Server, c: seq<nat>, n: nat)
    requires Prompt(serves, c, n)
    ensures c <= Track(serves, n)
    decreases n
  {
    if c != [] {
      var last := |c| - 1;
      assert c[last] < n;
      if c[last] < n - 1 {
        PromptEarlier(serves, c, n - 1);
        PromptIsTracked(serves, c, n - 1);
        TrackGrows(serves, n - 1);
      } else {
        PromptPrefix(serves, c, n, n - 1);
        PromptIsTracked(serves, c[..last], n - 1);
        LastIsTracked(serves, c, n - 1);
      }
    }
  }

  /** Where the stage depends only on the number of calls used, any chain of calls will do. */
  lemma {:induction false} AnyChainIsMatched(serves: Server, c: seq<nat>, n: nat)
    requires Increasing(c, n) && forall i :: 0 <= i < |c| ==> serves(c[..i], c[i])
    requires forall a, b, k :: |a| == |b| ==> serves(a, k) == serves(b, k)
    ensures |Track(serves, n)| >= |c|
    decreases n
  {
    if c != [] {
      var last := |c| - 1;
      if c[last] < n - 1 {
        AnyChainIsMatched(serves, c, n - 1);
        TrackGrows(serves, n - 1);
      } else {
        assert forall i :: 0 <= i < last ==> c[..last][..i] == c[..i];
        AnyChainIsMatched(serves, c[..last], n - 1);
        var t := Track(serves, n - 1);
        if |t| == last {
          assert serves(t, n - 1) == serves(c[..last], n - 1);
        }
      }
    }
  }
}
