/** The `balls` array of main.js seen as a bounded first-in-first-out queue:
    a ball is pushed at the back and, when the queue then holds more than
    `TargetBallCount` balls, exactly one ball is shifted out of the front. */
module BallQueue {
  import opened Config

  /** The queue after one or more admissions, and the balls they pushed out,
      oldest first. */
  datatype Admitted<T> = Admitted(queue: seq<T>, evicted: seq<T>)

  /** `balls.push(b)` followed by at most one `balls.shift()` when the length
      exceeds the cap. */
  function Admit<T>(q: seq<T>, b: T): (r: Admitted<T>)
    // nothing is lost or reordered: the evicted ball, if any, was the front
    ensures r.evicted + r.queue == q + [b]
    // at most one ball leaves, and one leaves exactly when the cap is exceeded
    ensures |r.evicted| <= 1
    ensures |r.evicted| == 1 <==> |q| + 1 > TargetBallCount
    ensures |q| <= TargetBallCount ==> |r.queue| == Min(|q| + 1, TargetBallCount)
    // even an over-full queue loses only one ball per admission
    ensures |q| >= TargetBallCount ==> |r.queue| == |q|
  {
    var pushed := q + [b];
    if |pushed| > TargetBallCount then Admitted(pushed[1..], pushed[..1])
    else Admitted(pushed, [])
  }

  /** Admits the balls of `bs` one after another, in order. */
  function AdmitAll<T>(q: seq<T>, bs: seq<T>): (r: Admitted<T>)
    // the evicted balls followed by the survivors are everything ever queued,
    // in insertion order: eviction is first-in-first-out
    ensures r.evicted + r.queue == q + bs
    // a queue within the cap keeps the newest min(|q| + |bs|, cap) balls
    ensures |q| <= TargetBallCount ==> |r.queue| == Min(|q| + |bs|, TargetBallCount)
    decreases |bs|
  {
    if |bs| == 0 then Admitted(q, [])
    else
      var a := Admit(q, bs[0]);
      var rest := AdmitAll(a.queue, bs[1..]);
      AdmitAllStep(q, bs, a, rest);
      Admitted(rest.queue, a.evicted + rest.evicted)
  }

  /** The inductive step of `AdmitAll`: one admission followed by the rest. */
  lemma AdmitAllStep<T>(q: seq<T>, bs: seq<T>, a: Admitted<T>, rest: Admitted<T>)
    requires |bs| > 0
    requires a.evicted + a.queue == q + [bs[0]]
    requires rest.evicted + rest.queue == a.queue + bs[1..]
    ensures (a.evicted + rest.evicted) + rest.queue == q + bs
  {
    calc {
      (a.evicted + rest.evicted) + rest.queue;
      a.evicted + (a.queue + bs[1..]);
      (q + [bs[0]]) + bs[1..];
      { assert bs == [bs[0]] + bs[1..]; }
      q + bs;
    }
  }

  /** Admitting `b` and then `rest` is admitting `[b] + rest`. */
  lemma AdmitAllCons<T>(q: seq<T>, b: T, rest: seq<T>)
    ensures AdmitAll(q, [b] + rest).queue == AdmitAll(Admit(q, b).queue, rest).queue
  {
    var bs := [b] + rest;
    assert bs[0] == b && bs[1..] == rest;
  }

  /** The n-th ball evicted from a queue within the cap is the n-th ball ever
      queued, and the survivors are the newest ones. */
  lemma AdmitAllIsFifo<T>(q: seq<T>, bs: seq<T>, n: nat)
    requires |q| <= TargetBallCount
    ensures n < |AdmitAll(q, bs).evicted| ==> AdmitAll(q, bs).evicted[n] == (q + bs)[n]
    ensures AdmitAll(q, bs).queue == (q + bs)[|q| + |bs| - Min(|q| + |bs|, TargetBallCount)..]
  {
    var r := AdmitAll(q, bs);
    if n < |r.evicted| {
      assert (r.evicted + r.queue)[n] == r.evicted[n];
    }
    assert (r.evicted + r.queue)[|r.evicted|..] == r.queue;
  }

  /** Starting from a full queue, `TargetBallCount` admissions replace every
      ball, evicting the original ones in their original order. */
  lemma FullTurnover<T>(q: seq<T>, bs: seq<T>)
    requires |q| == TargetBallCount && |bs| == TargetBallCount
    ensures AdmitAll(q, bs) == Admitted(bs, q)
  {
    var r := AdmitAll(q, bs);
    assert r.evicted == (r.evicted + r.queue)[..|q|];
    assert r.queue == (r.evicted + r.queue)[|q|..];
  }
}
