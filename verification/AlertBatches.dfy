/** Sending alerts to Alertmanager: batches of a hundred, each posted with retries and exponential backoff. */
module AlertBatches {
  import opened Common
  import opened Alerts

  const BATCH_SIZE: nat := 100

  /** The body posted for one alert; an alert that has not ended is sent with the zero end time. */
  datatype Posted = Posted(alertname: string, resource: string, orgId: string, summary: string, startsAt: int, endsAt: int)

  function ToPosted(info: AlertInfo): Posted {
    Posted(info.reason, info.name, info.org, info.summary, info.startsAt,
           if info.endsAt.Some? then info.endsAt.value else ZERO_TIME)
  }

  /** What is posted to tell that the alert `r` has ended, and when. */
  function EndNotice(r: string, info: AlertInfo): Posted
    requires info.endsAt.Some?
  {
    Posted(r, info.name, info.org, info.summary, info.startsAt, info.endsAt.value)
  }

  /** An ended alert is posted with its end, an active one with the zero time for it; the rest is the entry's. */
  lemma PostedTells(info: AlertInfo)
    ensures var item := ToPosted(info);
      && item.alertname == info.reason && item.resource == info.name && item.orgId == info.org
      && item.summary == info.summary && item.startsAt == info.startsAt
      && (info.endsAt.Some? ==> item.endsAt == info.endsAt.value) && (info.endsAt.None? ==> item.endsAt == ZERO_TIME)
  {
  }

  // ---- Batches -------------------------------------------------------------------------------

  /** The reference: cut a list into hundreds, the last part taking what is left. */
  function Chunk<T>(items: seq<T>): seq<seq<T>>
    decreases |items|
  {
    if items == [] then []
    else if |items| <= BATCH_SIZE then [items]
    else [items[..BATCH_SIZE]] + Chunk(items[BATCH_SIZE..])
  }

  function Concat<T>(parts: seq<seq<T>>): seq<T> {
    if parts == [] then [] else parts[0] + Concat(parts[1..])
  }

  /** The parts put together are the list: every item is in exactly one place, in order. */
  lemma {:induction false} ChunksConcat<T>(items: seq<T>)
    ensures Concat(Chunk(items)) == items
    decreases |items|
  {
    if |items| > BATCH_SIZE {
      ChunksConcat(items[BATCH_SIZE..]);
      assert Chunk(items)[1..] == Chunk(items[BATCH_SIZE..]);
    } else if items != [] {
      assert Chunk(items)[1..] == [];
    }
  }

  /** Every part but the last holds exactly a hundred items, the last at least one. */
  lemma {:induction false} ChunkSizes<T>(items: seq<T>)
    ensures forall i :: 0 <= i < |Chunk(items)| - 1 ==> |Chunk(items)[i]| == 100
    ensures items != [] ==> Chunk(items) != [] && 0 < |Chunk(items)[|Chunk(items)| - 1]| <= 100
    decreases |items|
  {
    if |items| > BATCH_SIZE {
      ChunkSizes(items[BATCH_SIZE..]);
    }
  }

  /** A full first part may be cut off. */
  lemma ChunkFirst<T>(first: seq<T>, rest: seq<T>)
    requires |first| == BATCH_SIZE
    ensures Chunk(first + rest) == [first] + Chunk(rest)
  {
    assert (first + rest)[..BATCH_SIZE] == first && (first + rest)[BATCH_SIZE..] == rest;
    if rest == [] {
      assert first + rest == first;
    }
  }

  lemma {:induction false} ChunkFull<T>(full: seq<seq<T>>, rest: seq<T>)
    requires forall i :: 0 <= i < |full| ==> |full[i]| == BATCH_SIZE
    ensures Chunk(Concat(full) + rest) == full + Chunk(rest)
    decreases |full|
  {
    if full == [] {
      assert Concat(full) + rest == rest;
    } else {
      assert Concat(full) + rest == full[0] + (Concat(full[1..]) + rest);
      ChunkFirst(full[0], Concat(full[1..]) + rest);
      ChunkFull(full[1..], rest);
      assert full == [full[0]] + full[1..];
    }
  }

  lemma {:induction false} ConcatSnoc<T>(parts: seq<seq<T>>, last: seq<T>)
    ensures Concat(parts + [last]) == Concat(parts) + last
    decreases |parts|
  {
    if parts == [] {
      assert parts + [last] == [last] && [last][1..] == [];
    } else {
      assert (parts + [last])[1..] == parts[1..] + [last];
      ConcatSnoc(parts[1..], last);
    }
  }

  // ---- One batch -----------------------------------------------------------------------------

  const MIN_INT64: int := -0x8000_0000_0000_0000
  const LIMIT_INT64: int := 0x8000_0000_0000_0000
  const RANGE_INT64: int := 0x1_0000_0000_0000_0000

  /** A product as 64-bit signed arithmetic leaves it. */
  function Wrap64(x: int): (r: int)
    ensures MIN_INT64 <= r < LIMIT_INT64
    ensures MIN_INT64 <= x < LIMIT_INT64 ==> r == x
  {
    (x - MIN_INT64) % RANGE_INT64 + MIN_INT64
  }

  function Pow2(n: nat): nat {
    if n == 0 then 1 else 2 * Pow2(n - 1)
  }

  function Capped(attempt: nat): nat {
    if attempt > 10 then 10 else attempt
  }

  datatype Client = Client(maxRetries: int, baseDelay: int, maxDelay: int)

  /** Configured values; a delay is absent when it is empty or does not parse. */
  datatype Config = Config(maxRetries: int, baseDelay: Option<int>, maxDelay: Option<int>)

  const MILLISECOND: int := 1_000_000

  predicate Usable(client: Client) {
    1 <= client.maxRetries <= 10 && 0 < client.baseDelay < LIMIT_INT64 && 0 < client.maxDelay < LIMIT_INT64
  }

  predicate Above(delay: Option<int>, least: int) {
    delay.Some? && delay.value > least
  }

  /** Out-of-range settings fall back to the defaults, so every client is usable. */
  function NewAlertmanagerClient(cfg: Option<Config>): (client: Client)
    requires cfg.Some? ==>
      (cfg.value.baseDelay.Some? ==> cfg.value.baseDelay.value < LIMIT_INT64)
      && (cfg.value.maxDelay.Some? ==> cfg.value.maxDelay.value < LIMIT_INT64)
    ensures Usable(client)
    ensures client.maxRetries == if cfg.Some? && 1 <= cfg.value.maxRetries <= 10 then cfg.value.maxRetries else 3
    ensures client.baseDelay == if cfg.Some? && Above(cfg.value.baseDelay, 0) then cfg.value.baseDelay.value else 500_000_000
    ensures client.maxDelay ==
      if cfg.Some? && Above(cfg.value.maxDelay, client.baseDelay) then cfg.value.maxDelay.value else 10_000_000_000
  {
    match cfg
    case None => Client(3, 500 * MILLISECOND, 10_000 * MILLISECOND)
    case Some(c) =>
      var retries := if 0 < c.maxRetries <= 10 then c.maxRetries else 3;
      var base := if c.baseDelay.Some? && c.baseDelay.value > 0 then c.baseDelay.value else 500 * MILLISECOND;
      var limit := if c.maxDelay.Some? && c.maxDelay.value > base then c.maxDelay.value else 10_000 * MILLISECOND;
      Client(retries, base, limit)
  }

  function Backoff(client: Client, attempt: nat): int {
    var delay := Wrap64(client.baseDelay * Pow2(Capped(attempt)));
    if delay > client.maxDelay then client.maxDelay else delay
  }

  /** Doubling `attempt` times stays below the 64-bit limit. */
  predicate Fits(client: Client, attempt: nat) {
    client.baseDelay * Pow2(Capped(attempt)) < LIMIT_INT64
  }

  lemma {:induction false} Pow2Grows(i: nat, j: nat)
    requires i <= j
    ensures 1 <= Pow2(i) <= Pow2(j)
    decreases j
  {
    if j > 0 {
      Pow2Grows(if i < j then i else j - 1, j - 1);
    }
  }

  lemma ScaledGrows(base: int, i: nat, j: nat)
    requires 0 < base && i <= j
    ensures 0 < base * Pow2(i) <= base * Pow2(j)
  {
    Pow2Grows(i, j);
    assert base * (Pow2(j) - Pow2(i)) >= 0;
    assert base * Pow2(i) >= base;
  }

  /** While the product fits, delays are positive, within the maximum and never shrink. */
  lemma BackoffGrows(client: Client, i: nat, j: nat)
    requires Usable(client) && i <= j && Fits(client, j)
    ensures 0 < Backoff(client, i) <= Backoff(client, j) <= client.maxDelay
  {
    ScaledGrows(client.baseDelay, Capped(i), Capped(j));
  }

  /** The first pause is the base delay and every next one is twice the one before, up to the maximum and ten
      doublings. */
  lemma BackoffDoubles(client: Client, i: nat)
    requires Usable(client) && Fits(client, i + 1)
    ensures Backoff(client, 0) == Least(client.baseDelay, client.maxDelay)
    ensures Backoff(client, i + 1) == if i < 10 then Least(2 * Backoff(client, i), client.maxDelay) else Backoff(client, i)
  {
    assert Pow2(0) == 1;
    ScaledGrows(client.baseDelay, Capped(i), Capped(i + 1));
    if i < 10 {
      var x := client.baseDelay * Pow2(i);
      assert client.baseDelay * Pow2(i + 1) == 2 * x;
      assert Wrap64(x) == x && Wrap64(2 * x) == 2 * x;
    }
  }

  function Least(a: int, b: int): int {
    if a < b then a else b
  }

  /** The first product that does not fit wraps to a negative number. */
  lemma FirstOverflowIsNegative(client: Client, i: nat)
    requires Usable(client) && 0 < i <= 10 && Fits(client, i - 1) && !Fits(client, i)
    ensures Backoff(client, i) < 0
  {
    var before := client.baseDelay * Pow2(i - 1);
    var x := client.baseDelay * Pow2(i);
    assert x == 2 * before;
    assert Wrap64(x) == x - RANGE_INT64;
  }

  lemma {:induction false} OverflowShowsUp(client: Client, n: nat) returns (i: nat)
    requires Usable(client) && !Fits(client, n)
    ensures i <= n && Backoff(client, i) < 0
  {
    assert Fits(client, 0) by {
      assert Pow2(0) == 1;
    }
    if n <= 10 && Fits(client, n - 1) {
      FirstOverflowIsNegative(client, n);
      i := n;
    } else {
      i := OverflowShowsUp(client, n - 1);
    }
  }

  /** All delays up to an attempt are positive and within the maximum exactly when the product fits. */
  lemma BackoffSoundIffFits(client: Client, n: nat)
    requires Usable(client)
    ensures (forall i: nat :: i <= n ==> 0 < Backoff(client, i) <= client.maxDelay) <==> Fits(client, n)
  {
    if Fits(client, n) {
      forall i: nat | i <= n
        ensures 0 < Backoff(client, i) <= client.maxDelay
      {
        BackoffGrows(client, i, n);
      }
    } else {
      var i := OverflowShowsUp(client, n);
    }
  }

  /** With a base delay of 2^62 the second pause is negative and the third is none at all. */
  lemma HugeBaseDelayWraps()
    ensures var client := Client(10, 0x4000_0000_0000_0000, 0x4000_0000_0000_0001);
      Usable(client) && Backoff(client, 1) < 0 && Backoff(client, 2) == 0
  {
    assert Pow2(1) == 2 && Pow2(2) == 4;
  }

  datatype PostOutcome = Accepted | Retryable | Fatal

  /** The longest pause the client can make fits. */
  predicate NeverOverflows(client: Client) {
    client.maxRetries >= 2 ==> Fits(client, client.maxRetries - 2)
  }

  function Delays(client: Client, n: nat): seq<int> {
    if n == 0 then [] else Delays(client, n - 1) + [Backoff(client, n - 1)]
  }

  function Sum(s: seq<int>): int {
    if s == [] then 0 else Sum(s[..|s| - 1]) + s[|s| - 1]
  }

  lemma {:induction false} DelaysAt(client: Client, n: nat, i: nat)
    requires i < n
    ensures |Delays(client, n)| == n && Delays(client, n)[i] == Backoff(client, i)
  {
    if n > 1 {
      DelaysAt(client, n - 1, if i < n - 1 then i else 0);
    }
  }

  lemma {:induction false} DelaysBounded(client: Client, n: nat)
    requires Usable(client) && (n > 0 ==> Fits(client, n - 1))
    ensures 0 <= Sum(Delays(client, n)) <= n * client.maxDelay
  {
    if n > 0 {
      if n > 1 {
        ScaledGrows(client.baseDelay, Capped(n - 2), Capped(n - 1));
      }
      DelaysBounded(client, n - 1);
      BackoffGrows(client, n - 1, n - 1);
      assert Delays(client, n)[..|Delays(client, n)| - 1] == Delays(client, n - 1);
    }
  }

  /** The server accepts batch `b` at attempt `a`: it is among those made, and every one before it may be retried. */
  predicate AcceptsAt(client: Client, post: (nat, nat) -> PostOutcome, b: nat, a: nat) {
    a < client.maxRetries && post(b, a) == Accepted && forall i: nat :: i < a ==> post(b, i) == Retryable
  }

  ghost predicate Accepts(client: Client, post: (nat, nat) -> PostOutcome, b: nat) {
    exists a: nat :: AcceptsAt(client, post, b, a)
  }

  lemma NotAccepted(client: Client, post: (nat, nat) -> PostOutcome, b: nat, posts: nat)
    requires 1 <= posts && (forall i: nat :: i < posts - 1 ==> post(b, i) == Retryable)
    requires post(b, posts - 1) != Accepted && (post(b, posts - 1) == Fatal || posts >= client.maxRetries)
    ensures !Accepts(client, post, b)
  {
    forall a: nat
      ensures !AcceptsAt(client, post, b, a)
    {
      assert a >= posts ==> post(b, posts - 1) != Retryable || a >= client.maxRetries;
    }
  }

  /** Posts batch `b`. `post(b, a)` is the server's answer to attempt `a`, `delays` the pauses made. */
  method PostBatchWithRetry(client: Client, post: (nat, nat) -> PostOutcome, b: nat)
    returns (ok: bool, posts: nat, delays: seq<int>)
    requires Usable(client)
    ensures 1 <= posts <= client.maxRetries
    ensures forall i: nat :: i < posts - 1 ==> post(b, i) == Retryable
    ensures ok <==> post(b, posts - 1) == Accepted
    ensures ok <==> Accepts(client, post, b)
    ensures !ok ==> post(b, posts - 1) == Fatal || posts == client.maxRetries
    ensures delays == Delays(client, posts - 1)
    ensures NeverOverflows(client) ==> 0 <= Sum(delays) <= (client.maxRetries - 1) * client.maxDelay
  {
    delays, posts := [], 0;
    while posts < client.maxRetries
      invariant 0 <= posts <= client.maxRetries
      invariant forall i: nat :: i < posts ==> post(b, i) == Retryable
      invariant posts > 0 ==> delays == Delays(client, if posts < client.maxRetries then posts else posts - 1)
      invariant posts == 0 ==> delays == []
    {
      var answer := post(b, posts);
      posts := posts + 1;
      if answer != Retryable {
        ok := answer == Accepted;
        if ok {
          assert AcceptsAt(client, post, b, posts - 1);
        } else {
          NotAccepted(client, post, b, posts);
        }
        TotalDelay(client, posts - 1);
        return;
      }
      if posts < client.maxRetries {
        delays := delays + [Backoff(client, posts - 1)];
      }
    }
    TotalDelay(client, posts - 1);
    NotAccepted(client, post, b, posts);
    ok := false;
  }

  lemma TotalDelay(client: Client, n: nat)
    requires Usable(client) && n < client.maxRetries
    ensures NeverOverflows(client) ==> 0 <= Sum(Delays(client, n)) <= (client.maxRetries - 1) * client.maxDelay
  {
    if NeverOverflows(client) {
      if n > 0 {
        ScaledGrows(client.baseDelay, Capped(n - 1), Capped(client.maxRetries - 2));
      }
      DelaysBounded(client, n);
      ProductGrows(n, client.maxRetries - 1, client.maxDelay);
    }
  }

  lemma ProductGrows(a: nat, b: nat, c: nat)
    requires a <= b
    ensures a * c <= b * c
  {
    assert b * c == a * c + (b - a) * c;
  }

  // ---- The whole list ------------------------------------------------------------------------

  /** All of the first `n` batches are accepted and no batch is refused, or those before the refused one are. */
  ghost predicate AnsweredAs(client: Client, post: (nat, nat) -> PostOutcome, n: nat, stoppedAt: Option<nat>) {
    && (forall b: nat :: b < (if stoppedAt.Some? then stoppedAt.value else n) ==> Accepts(client, post, b))
    && (stoppedAt.Some? ==> !Accepts(client, post, stoppedAt.value))
  }

  /** Sends a list of alerts. `post(b, a)` is the server's answer to attempt `a` of batch `b`. What was accepted
      is always a prefix of the reference batches: all of them on success, a strict prefix on failure. */
  method SendAll(client: Client, items: seq<Posted>, post: (nat, nat) -> PostOutcome)
    returns (ok: bool, accepted: seq<seq<Posted>>)
    requires Usable(client)
    ensures accepted <= Chunk(items)
    ensures ok <==> |accepted| == |Chunk(items)|
    ensures ok ==> Concat(accepted) == items
    ensures AnsweredAs(client, post, |Chunk(items)|, if ok then None else Some(|accepted|))
  {
    accepted := [];
    var batch: seq<Posted> := [];
    for i := 0 to |items|
      invariant |batch| < BATCH_SIZE
      invariant forall j :: 0 <= j < |accepted| ==> |accepted[j]| == BATCH_SIZE
      invariant Concat(accepted) + batch == items[..i]
      invariant forall j: nat :: j < |accepted| ==> Accepts(client, post, j)
    {
      batch := batch + [items[i]];
      assert Concat(accepted) + batch == items[..i + 1];
      if |batch| >= BATCH_SIZE {
        var sent, _, _ := PostBatchWithRetry(client, post, |accepted|);
        if !sent {
          StoppedShort(accepted, batch, items, i + 1);
          return false, accepted;
        }
        ConcatSnoc(accepted, batch);
        accepted := accepted + [batch];
        batch := [];
      }
    }
    assert items[..|items|] == items;
    ChunkFull(accepted, batch);
    if |batch| > 0 {
      var sent, _, _ := PostBatchWithRetry(client, post, |accepted|);
      if !sent {
        return false, accepted;
      }
      accepted := accepted + [batch];
    }
    ChunksConcat(items);
    ok := true;
  }

  lemma StoppedShort(accepted: seq<seq<Posted>>, batch: seq<Posted>, items: seq<Posted>, i: nat)
    requires i <= |items| && |batch| == BATCH_SIZE && Concat(accepted) + batch == items[..i]
    requires forall j :: 0 <= j < |accepted| ==> |accepted[j]| == BATCH_SIZE
    ensures accepted <= Chunk(items) && |accepted| < |Chunk(items)|
  {
    assert items == items[..i] + items[i..];
    assert items == Concat(accepted) + (batch + items[i..]);
    ChunkFull(accepted, batch + items[i..]);
    ChunkFirst(batch, items[i..]);
  }
}
