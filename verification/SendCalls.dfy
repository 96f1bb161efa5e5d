/** What the calls of `send` in a loop of sendMessage take, call by call, of what the system answers. */
module SendCalls {
  import opened Common

  /** What `send` returns for `remaining` bytes: -1 on a closed socket, otherwise what the system answers. */
  function Send(open: bool, remaining: nat, answer: int): (sent: int)
    ensures -1 <= sent <= remaining
    ensures sent > 0 <==> open && answer > 0 && remaining > 0
    ensures sent > 0 ==> sent == answer || (sent == remaining < answer)
  {
    if !open || answer < 0 then -1 else if answer > remaining then remaining else answer
  }

  function Sum(took: seq<nat>): nat {
    if took == [] then 0 else Sum(took[..|took| - 1]) + took[|took| - 1]
  }

  /** The calls took these bytes of a message of `n`: each as many as the system answered, or all that remained. */
  ghost predicate Took(n: nat, answers: nat -> int, took: seq<nat>) {
    && Sum(took) <= n
    && forall k :: 0 <= k < |took| ==>
         && 0 < took[k] <= answers(k)
         && (took[k] < answers(k) ==> Sum(took[..k]) + took[k] == n)
  }

  lemma NothingTook(n: nat, answers: nat -> int)
    ensures Took(n, answers, []) && Sum([]) == 0
  {
  }

  /** One more call. */
  lemma OneMoreTook(n: nat, answers: nat -> int, took: seq<nat>, sent: nat)
    requires Took(n, answers, took) && 0 < sent <= n - Sum(took)
    requires sent == answers(|took|) || (sent < answers(|took|) && sent == n - Sum(took))
    ensures Took(n, answers, took + [sent]) && Sum(took + [sent]) == Sum(took) + sent
  {
    var more := took + [sent];
    SumMore(took, sent);
    hide Sum;
    forall k | 0 <= k < |more|
      ensures 0 < more[k] <= answers(k) && (more[k] < answers(k) ==> Sum(more[..k]) + more[k] == n)
    {
      if k < |took| {
        assert more[..k] == took[..k] && more[k] == took[k];
      } else {
        assert more[..k] == took;
      }
    }
  }

  lemma SumMore(took: seq<nat>, sent: nat)
    ensures Sum(took + [sent]) == Sum(took) + sent
  {
    assert (took + [sent])[..|took|] == took;
  }

  /** What the first `k` calls take is determined by the answers alone. */
  lemma {:induction false} TookIsDetermined(n: nat, answers: nat -> int, a: seq<nat>, b: seq<nat>, k: nat)
    requires Took(n, answers, a) && Took(n, answers, b) && k <= |a| && k <= |b|
    ensures a[..k] == b[..k]
  {
    hide Took, Sum;
    if k > 0 {
      var j := k - 1;
      TookIsDetermined(n, answers, a, b, j);
      CallTakes(n, answers, a, j);
      CallTakes(n, answers, b, j);
      assert a[..k] == a[..j] + [a[j]] && b[..k] == b[..j] + [b[j]];
    }
  }

  lemma CallTakes(n: nat, answers: nat -> int, took: seq<nat>, k: nat)
    requires Took(n, answers, took) && k < |took|
    ensures var left := n - Sum(took[..k]); took[k] == if answers(k) < left then answers(k) else left
  {
    TookPrefix(n, answers, took, k + 1);
    SumMore(took[..k], took[k]);
    assert took[..k + 1] == took[..k] + [took[k]];
  }

  lemma {:induction false} TookPrefix(n: nat, answers: nat -> int, took: seq<nat>, k: nat)
    requires Took(n, answers, took) && k <= |took|
    ensures Took(n, answers, took[..k])
    decreases |took| - k
  {
    if k < |took| {
      TookPrefix(n, answers, took, k + 1);
      assert took[..k + 1][..k] == took[..k];
      forall j | 0 <= j < k ensures took[..k][j] == took[j] && took[..k][..j] == took[..j] {
      }
    } else {
      assert took[..k] == took;
    }
  }
}
