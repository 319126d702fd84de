/** The per-node publish rate limit: one token bucket per topic, over exact reals. */
module TokenBucket {
  datatype Bucket = Bucket(tokens: real, lastRefill: nat)

  type Buckets = map<string, Bucket>

  datatype Call = Call(topic: string, rate: nat, n: nat, now: nat)

  /** What `ms` milliseconds earn at `rate` tokens a second. */
  function Earned(rate: nat, ms: nat): real { ms as real * rate as real / 1000.0 }

  function Min(a: real, b: real): real { if a <= b then a else b }

  /** The bucket a call draws from: a new one is full, a clock that stepped back earns nothing. */
  function Refilled(bs: Buckets, c: Call): Bucket {
    var b := if c.topic in bs then bs[c.topic] else Bucket(c.rate as real, c.now);
    if c.now > b.lastRefill
    then Bucket(Min(b.tokens + Earned(c.rate, c.now - b.lastRefill), c.rate as real), c.now) else b
  }

  predicate Grants(bs: Buckets, c: Call) { Refilled(bs, c).tokens >= c.n as real }

  function Drawn(bs: Buckets, c: Call): Buckets {
    var b := Refilled(bs, c);
    bs[c.topic := if Grants(bs, c) then b.(tokens := b.tokens - c.n as real) else b]
  }

  class RateLimiter {
    var buckets: Buckets

    constructor ()
      ensures buckets == map[]
    {
      buckets := map[];
    }

    method TryTakeTokens(topic: string, rate: nat, n: nat, now: nat) returns (ok: bool)
      modifies this
      ensures ok == Grants(old(buckets), Call(topic, rate, n, now))
      ensures buckets == Drawn(old(buckets), Call(topic, rate, n, now))
    {
      var cap := rate as real;
      if topic !in buckets {
        buckets := buckets[topic := Bucket(cap, now)];
      }
      var bucket := buckets[topic];
      var elapsed := if now >= bucket.lastRefill then now - bucket.lastRefill else 0;
      if elapsed > 0 {
        bucket := Bucket(Min(bucket.tokens + Earned(rate, elapsed), cap), now);
      }
      var need := n as real;
      ok := bucket.tokens >= need;
      if ok {
        bucket := bucket.(tokens := bucket.tokens - need);
      }
      buckets := buckets[topic := bucket];
    }
  }

  // ---- runs: any calls, from a fresh node ----

  function After(calls: seq<Call>): Buckets {
    if calls == [] then map[] else Drawn(After(calls[..|calls| - 1]), calls[|calls| - 1])
  }

  /** Whether the k-th call was granted. */
  predicate Granted(calls: seq<Call>, k: nat)
    requires k < |calls|
  {
    Grants(After(calls[..k]), calls[k])
  }

  /** What the topic was granted by the k-th call. */
  function GrantedAt(calls: seq<Call>, topic: string): nat -> nat {
    (k: nat) => if k < |calls| && calls[k].topic == topic && Granted(calls, k) then calls[k].n else 0
  }

  function Sum(f: nat -> nat, i: nat, j: nat): nat
    requires i <= j
  {
    if i == j then 0 else Sum(f, i, j - 1) + f(j - 1)
  }

  /** Tokens granted to the topic by the calls i, ..., j - 1. */
  function GrantedIn(calls: seq<Call>, topic: string, i: nat, j: nat): nat
    requires i <= j <= |calls|
  {
    Sum(GrantedAt(calls, topic), i, j)
  }

  /** The latest clock reading of the topic's calls. */
  function Latest(calls: seq<Call>, topic: string): nat {
    if calls == [] then 0
    else
      var before, c := Latest(calls[..|calls| - 1], topic), calls[|calls| - 1];
      if c.topic == topic && c.now > before then c.now else before
  }

  predicate Called(calls: seq<Call>, topic: string) { exists k :: 0 <= k < |calls| && calls[k].topic == topic }

  ghost predicate RateAtMost(calls: seq<Call>, topic: string, rate: nat) {
    forall k :: 0 <= k < |calls| && calls[k].topic == topic ==> calls[k].rate <= rate
  }

  lemma EarnedMonotone(slow: nat, fast: nat, ms: nat)
    requires slow <= fast
    ensures 0.0 <= Earned(slow, ms) <= Earned(fast, ms)
  {
    assert slow as real * ms as real <= fast as real * ms as real;
  }

  lemma EarnedAdds(rate: nat, a: nat, b: nat)
    ensures Earned(rate, a + b) == Earned(rate, a) + Earned(rate, b)
  {
    assert (a + b) as real * rate as real == a as real * rate as real + b as real * rate as real;
  }

  /** In every run a topic's bucket holds between none and `rate` tokens and was last
      refilled at the latest clock reading. */
  lemma {:induction false} BucketInRange(calls: seq<Call>, topic: string, rate: nat)
    requires RateAtMost(calls, topic, rate)
    ensures topic in After(calls) <==> Called(calls, topic)
    ensures topic in After(calls) ==>
              0.0 <= After(calls)[topic].tokens <= rate as real && After(calls)[topic].lastRefill == Latest(calls, topic)
    ensures topic !in After(calls) ==> Latest(calls, topic) == 0
  {
    if calls != [] {
      var front, c := calls[..|calls| - 1], calls[|calls| - 1];
      BucketInRange(front, topic, rate);
      assert calls == front + [c];
      assert Called(calls, topic) <==> Called(front, topic) || c.topic == topic;
      if c.topic == topic { DrawStaysInRange(After(front), c, rate); }
    }
  }

  lemma DrawStaysInRange(bs: Buckets, c: Call, rate: nat)
    requires c.rate <= rate && (c.topic in bs ==> 0.0 <= bs[c.topic].tokens <= rate as real)
    ensures 0.0 <= Refilled(bs, c).tokens <= rate as real && 0.0 <= Drawn(bs, c)[c.topic].tokens <= rate as real
    ensures c.topic in bs ==>
              Refilled(bs, c).tokens <= bs[c.topic].tokens + Earned(rate, Refilled(bs, c).lastRefill - bs[c.topic].lastRefill)
  {
    if c.topic in bs && c.now > bs[c.topic].lastRefill {
      EarnedMonotone(c.rate, rate, c.now - bs[c.topic].lastRefill);
    }
  }

  /** An earning rule that the rate does not exceed. */
  ghost predicate Covers(earn: nat -> real, rate: nat) {
    (forall a, b :: AddsUp(earn, a, b)) && forall ms: nat :: Earned(rate, ms) <= earn(ms)
  }

  ghost predicate AddsUp(earn: nat -> real, a: nat, b: nat) { earn(a + b) == earn(a) + earn(b) }

  function EarnedAt(rate: nat): nat -> real { (ms: nat) => Earned(rate, ms) }

  lemma EarnedCovers(rate: nat)
    ensures Covers(EarnedAt(rate), rate)
  {
    forall a: nat, b: nat ensures AddsUp(EarnedAt(rate), a, b) { EarnedAdds(rate, a, b); }
  }

  /** Draw k pays for itself: what it was granted is missing from the bucket or was earned. */
  ghost predicate Pays(granted: nat -> nat, tokens: nat -> real, latest: nat -> nat, earn: nat -> real, k: nat) {
    latest(k) <= latest(k + 1) && granted(k) as real + tokens(k + 1) <= tokens(k) + earn(latest(k + 1) - latest(k))
  }

  lemma {:induction false} PaymentsAddUp(
    granted: nat -> nat, tokens: nat -> real, latest: nat -> nat, earn: nat -> real, full: real, i: nat, j: nat)
    requires i < j && (forall a, b :: AddsUp(earn, a, b))
    requires granted(i) as real + tokens(i + 1) <= full
    requires forall k :: i < k < j ==> Pays(granted, tokens, latest, earn, k)
    ensures latest(i + 1) <= latest(j)
    ensures Sum(granted, i, j) as real + tokens(j) <= full + earn(latest(j) - latest(i + 1))
  {
    if j == i + 1 {
      assert Sum(granted, i, i) == 0;
      assert AddsUp(earn, 0, 0);
    } else {
      PaymentsAddUp(granted, tokens, latest, earn, full, i, j - 1);
      assert Pays(granted, tokens, latest, earn, j - 1);
      assert AddsUp(earn, latest(j - 1) - latest(i + 1), latest(j) - latest(j - 1));
    }
  }

  function TokensAfter(calls: seq<Call>, topic: string): nat -> real {
    (k: nat) => if k <= |calls| && topic in After(calls[..k]) then After(calls[..k])[topic].tokens else 0.0
  }

  function LatestAfter(calls: seq<Call>, topic: string): nat -> nat {
    (k: nat) => if k <= |calls| then Latest(calls[..k], topic) else 0
  }

  lemma {:induction false} BucketStays(calls: seq<Call>, topic: string, i: nat, k: nat)
    requires i < k <= |calls| && calls[i].topic == topic
    ensures topic in After(calls[..k])
  {
    assert calls[..k][..k - 1] == calls[..k - 1];
    if k > i + 1 { BucketStays(calls, topic, i, k - 1); }
  }

  /** One call takes from the bucket no more than it held and the clock's advance earned. */
  lemma DrawPaysFromBucket(calls: seq<Call>, topic: string, rate: nat, earn: nat -> real, j: nat)
    requires RateAtMost(calls, topic, rate) && Covers(earn, rate) && 0 < j <= |calls|
    ensures Latest(calls[..j - 1], topic) <= Latest(calls[..j], topic)
    ensures calls[j - 1].topic == topic ==>
              topic in After(calls[..j])
              && GrantedAt(calls, topic)(j - 1) as real + After(calls[..j])[topic].tokens <= rate as real
    ensures topic in After(calls[..j - 1]) ==>
              topic in After(calls[..j])
              && GrantedAt(calls, topic)(j - 1) as real + After(calls[..j])[topic].tokens
                 <= After(calls[..j - 1])[topic].tokens + earn(Latest(calls[..j], topic) - Latest(calls[..j - 1], topic))
  {
    var c := calls[j - 1];
    assert calls[..j][..j - 1] == calls[..j - 1] && calls[..j][j - 1] == c;
    BucketInRange(calls[..j - 1], topic, rate);
    assert AddsUp(earn, 0, 0);
    if c.topic == topic { DrawStaysInRange(After(calls[..j - 1]), c, rate); }
  }

  lemma FirstDrawPays(calls: seq<Call>, topic: string, rate: nat, i: nat)
    requires RateAtMost(calls, topic, rate) && i < |calls| && calls[i].topic == topic
    ensures GrantedAt(calls, topic)(i) as real + TokensAfter(calls, topic)(i + 1) <= rate as real
  {
    EarnedCovers(rate);
    DrawPaysFromBucket(calls, topic, rate, EarnedAt(rate), i + 1);
  }

  lemma LaterDrawPays(calls: seq<Call>, topic: string, rate: nat, i: nat, k: nat)
    requires RateAtMost(calls, topic, rate) && i < k < |calls| && calls[i].topic == topic
    ensures Pays(GrantedAt(calls, topic), TokensAfter(calls, topic), LatestAfter(calls, topic), EarnedAt(rate), k)
  {
    EarnedCovers(rate);
    BucketStays(calls, topic, i, k);
    DrawPaysFromBucket(calls, topic, rate, EarnedAt(rate), k + 1);
  }

  /** Tokens granted since call i, with those still in the bucket, never exceed one full
      bucket and what the clock's advance has earned. */
  lemma PotentialBound(calls: seq<Call>, topic: string, rate: nat, i: nat, j: nat)
    requires RateAtMost(calls, topic, rate) && i < j <= |calls| && calls[i].topic == topic
    ensures LatestAfter(calls, topic)(i + 1) <= LatestAfter(calls, topic)(j)
    ensures GrantedIn(calls, topic, i, j) as real + TokensAfter(calls, topic)(j)
            <= rate as real + EarnedAt(rate)(LatestAfter(calls, topic)(j) - LatestAfter(calls, topic)(i + 1))
  {
    EarnedCovers(rate);
    FirstDrawPays(calls, topic, rate, i);
    forall k | i < k < j
      ensures Pays(GrantedAt(calls, topic), TokensAfter(calls, topic), LatestAfter(calls, topic), EarnedAt(rate), k)
    {
      LaterDrawPays(calls, topic, rate, i, k);
    }
    PaymentsAddUp(GrantedAt(calls, topic), TokensAfter(calls, topic), LatestAfter(calls, topic), EarnedAt(rate),
                  rate as real, i, j);
  }

  lemma {:induction false} LatestBounded(calls: seq<Call>, topic: string, i: nat, j: nat, end: nat)
    requires i < j <= |calls| && calls[i].topic == topic
    requires forall k :: i <= k < j && calls[k].topic == topic ==> calls[k].now <= end
    ensures calls[i].now <= Latest(calls[..i + 1], topic)
    ensures Latest(calls[..j], topic) <= Latest(calls[..i + 1], topic) || Latest(calls[..j], topic) <= end
  {
    assert calls[..j][..j - 1] == calls[..j - 1] && calls[..i + 1][..i] == calls[..i];
    if j > i + 1 { LatestBounded(calls, topic, i, j - 1, end); }
  }

  lemma WindowEarns(calls: seq<Call>, topic: string, rate: nat, i: nat, j: nat, end: nat)
    requires RateAtMost(calls, topic, rate) && i < j <= |calls| && calls[i].topic == topic
    requires forall k :: i <= k < j && calls[k].topic == topic ==> calls[k].now <= end
    ensures GrantedIn(calls, topic, i, j) as real <= rate as real + Earned(rate, end - calls[i].now)
  {
    PotentialBound(calls, topic, rate, i, j);
    BucketInRange(calls[..j], topic, rate);
    LatestBounded(calls, topic, i, j, end);
    var spread := Latest(calls[..j], topic) - Latest(calls[..i + 1], topic);
    EarnedWithin(rate, spread, end - calls[i].now);
  }

  lemma EarnedWithin(rate: nat, spread: nat, span: nat)
    requires spread <= span
    ensures Earned(rate, spread) <= Earned(rate, span)
  {
    EarnedAdds(rate, spread, span - spread);
    EarnedMonotone(0, rate, span - spread);
  }

  /** The window bound: for every run, whatever the clock does, the tokens a topic is granted
      between a draw at time `start` and a later one, with no clock reading beyond `end`,
      are at most one full bucket and what the window's length earns. */
  lemma WindowBound(calls: seq<Call>, topic: string, rate: nat, i: nat, j: nat, end: nat)
    requires RateAtMost(calls, topic, rate) && i < j <= |calls| && calls[i].topic == topic
    requires forall k :: i <= k < j && calls[k].topic == topic ==> calls[k].now <= end
    ensures GrantedIn(calls, topic, i, j) as real <= rate as real + (end - calls[i].now) as real * rate as real / 1000.0
  {
    WindowEarns(calls, topic, rate, i, j, end);
    LatestBounded(calls, topic, i, j, end);
  }

  /** A clock that does not pass its earlier readings earns nothing at all. */
  lemma SteppedBackClockEarnsNothing(calls: seq<Call>, topic: string, rate: nat, i: nat, j: nat)
    requires RateAtMost(calls, topic, rate) && i < j <= |calls| && calls[i].topic == topic
    requires forall k :: i <= k < j && calls[k].topic == topic ==> calls[k].now <= Latest(calls[..i + 1], topic)
    ensures GrantedIn(calls, topic, i, j) <= rate
  {
    PotentialBound(calls, topic, rate, i, j);
    BucketInRange(calls[..j], topic, rate);
    LatestBounded(calls, topic, i, j, Latest(calls[..i + 1], topic));
    assert Earned(rate, 0) == 0.0;
  }

  // ---- exactly when a draw is granted ----

  /** Before draw k the bucket holds what was left and what the clock earned, up to a full one. */
  ghost predicate Refills(tokens: nat -> real, granted: nat -> nat, latest: nat -> nat, earn: nat -> real, full: real, k: nat) {
    && k > 0 && latest(k - 1) <= latest(k)
    && tokens(k) == Min(tokens(k - 1) - granted(k - 1) as real + earn(latest(k) - latest(k - 1)), full)
  }

  /** So there is as much room as the tightest window since some earlier draw leaves. */
  lemma {:induction false} TightestWindow(tokens: nat -> real, granted: nat -> nat, latest: nat -> nat, earn: nat -> real,
                                          full: real, k: nat) returns (i: nat)
    requires (forall a, b :: AddsUp(earn, a, b)) && tokens(0) == full
    requires forall j :: 0 < j <= k ==> Refills(tokens, granted, latest, earn, full, j)
    ensures i <= k && latest(i) <= latest(k)
    ensures tokens(k) + Sum(granted, i, k) as real == full + earn(latest(k) - latest(i))
    ensures forall j :: 0 <= j <= k ==> RoomAfter(tokens, granted, latest, earn, full, j, k)
  {
    assert AddsUp(earn, 0, 0) && Sum(granted, k, k) == 0;
    if k == 0 {
      i := 0;
    } else {
      i := TightestWindow(tokens, granted, latest, earn, full, k - 1);
      assert Refills(tokens, granted, latest, earn, full, k);
      assert AddsUp(earn, latest(k - 1) - latest(i), latest(k) - latest(k - 1));
      forall j | 0 <= j <= k ensures RoomAfter(tokens, granted, latest, earn, full, j, k) {
        if j < k {
          assert RoomAfter(tokens, granted, latest, earn, full, j, k - 1);
          assert AddsUp(earn, latest(k - 1) - latest(j), latest(k) - latest(k - 1));
        }
      }
      if tokens(k) == full { i := k; }
    }
  }

  ghost predicate RoomAfter(tokens: nat -> real, granted: nat -> nat, latest: nat -> nat, earn: nat -> real, full: real,
                            j: nat, k: nat)
  {
    j <= k && latest(j) <= latest(k) && tokens(k) + Sum(granted, j, k) as real <= full + earn(latest(k) - latest(j))
  }

  /** All calls are the topic's, at one rate. */
  ghost predicate Uniform(calls: seq<Call>, topic: string, rate: nat) {
    forall k :: 0 <= k < |calls| ==> calls[k].topic == topic && calls[k].rate == rate
  }

  /** The tokens draw k finds, and the clock by then. */
  function TokensFound(calls: seq<Call>): nat -> real {
    (k: nat) => if k < |calls| then Refilled(After(calls[..k]), calls[k]).tokens else 0.0
  }

  function ClockAt(calls: seq<Call>, topic: string): nat -> nat {
    (k: nat) => if k < |calls| then Latest(calls[..k + 1], topic) else 0
  }

  lemma FoundRefills(calls: seq<Call>, topic: string, rate: nat, k: nat)
    requires Uniform(calls, topic, rate) && 0 < k < |calls|
    ensures Refills(TokensFound(calls), GrantedAt(calls, topic), ClockAt(calls, topic), EarnedAt(rate), rate as real, k)
  {
    assert calls[..k + 1][..k] == calls[..k];
    LeftByDraw(calls, topic, rate, k);
    FoundAfter(After(calls[..k]), calls[k], rate);
  }

  lemma LeftByDraw(calls: seq<Call>, topic: string, rate: nat, k: nat)
    requires Uniform(calls, topic, rate) && 0 < k <= |calls|
    ensures topic in After(calls[..k]) && After(calls[..k])[topic].lastRefill == Latest(calls[..k], topic)
    ensures After(calls[..k])[topic].tokens == TokensFound(calls)(k - 1) - GrantedAt(calls, topic)(k - 1) as real <= rate as real
  {
    assert calls[..k][..k - 1] == calls[..k - 1] && calls[..k][k - 1] == calls[k - 1];
    BucketInRange(calls[..k], topic, rate);
    DrawnLeaves(After(calls[..k - 1]), calls[k - 1]);
  }

  lemma DrawnLeaves(bs: Buckets, c: Call)
    ensures Drawn(bs, c)[c.topic].tokens == Refilled(bs, c).tokens - (if Grants(bs, c) then c.n as real else 0.0)
  {}

  lemma FoundAfter(bs: Buckets, c: Call, rate: nat)
    requires c.rate == rate && c.topic in bs && bs[c.topic].tokens <= rate as real
    ensures var b := bs[c.topic];
            Refilled(bs, c).tokens ==
            Min(b.tokens + Earned(rate, if c.now > b.lastRefill then c.now - b.lastRefill else 0), rate as real)
  {
    assert Earned(rate, 0) == 0.0;
  }

  /** A draw of n at k fits into the window since draw j: with what was granted since then it is
      at most a full bucket and what the clock has earned since. */
  ghost predicate Fits(granted: nat -> nat, latest: nat -> nat, earn: nat -> real, full: real, j: nat, k: nat, n: nat) {
    j <= k && latest(j) <= latest(k) && (Sum(granted, j, k) + n) as real <= full + earn(latest(k) - latest(j))
  }

  lemma EnoughIffFits(tokens: nat -> real, granted: nat -> nat, latest: nat -> nat, earn: nat -> real, full: real, k: nat, n: nat)
    requires (forall a, b :: AddsUp(earn, a, b)) && tokens(0) == full
    requires forall j :: 0 < j <= k ==> Refills(tokens, granted, latest, earn, full, j)
    ensures tokens(k) >= n as real <==> forall j :: 0 <= j <= k ==> Fits(granted, latest, earn, full, j, k, n)
  {
    var i := TightestWindow(tokens, granted, latest, earn, full, k);
    forall j | 0 <= j <= k ensures tokens(k) >= n as real ==> Fits(granted, latest, earn, full, j, k, n) {
      assert RoomAfter(tokens, granted, latest, earn, full, j, k);
    }
    if forall j :: 0 <= j <= k ==> Fits(granted, latest, earn, full, j, k, n) {
      assert Fits(granted, latest, earn, full, i, k, n);
    }
  }

  /** At one rate a draw is granted exactly if it fits into every window that ends with it. */
  lemma GrantedIff(calls: seq<Call>, topic: string, rate: nat, full: real, k: nat)
    requires Uniform(calls, topic, rate) && k < |calls| && full == rate as real
    ensures Granted(calls, k) <==>
              forall j :: 0 <= j <= k ==>
                Fits(GrantedAt(calls, topic), ClockAt(calls, topic), EarnedAt(rate), full, j, k, calls[k].n)
  {
    EarnedCovers(rate);
    FirstFindsFull(calls, topic, rate);
    forall j | 0 < j <= k
      ensures Refills(TokensFound(calls), GrantedAt(calls, topic), ClockAt(calls, topic), EarnedAt(rate), full, j)
    {
      FoundRefills(calls, topic, rate, j);
    }
    EnoughIffFits(TokensFound(calls), GrantedAt(calls, topic), ClockAt(calls, topic), EarnedAt(rate), full, k, calls[k].n);
  }

  lemma FirstFindsFull(calls: seq<Call>, topic: string, rate: nat)
    requires Uniform(calls, topic, rate) && calls != []
    ensures TokensFound(calls)(0) == rate as real
  {
    assert calls[..0] == [];
  }

  lemma SecondFillsBucket(bs: Buckets, c: Call)
    requires c.n <= c.rate && (c.topic in bs ==> bs[c.topic].tokens >= 0.0 && c.now >= bs[c.topic].lastRefill + 1000)
    ensures Grants(bs, c)
  {
    if c.topic in bs {
      var ms := c.now - bs[c.topic].lastRefill;
      EarnedAdds(c.rate, 1000, ms - 1000);
      EarnedMonotone(0, c.rate, ms - 1000);
      assert Earned(c.rate, 1000) == c.rate as real;
    }
  }

  /** The limit is not stricter than promised: a topic idle for a second, or never used,
      is granted any draw up to its rate. */
  lemma IdleTopicIsGranted(calls: seq<Call>, c: Call, rate: nat)
    requires RateAtMost(calls, c.topic, rate) && c.n <= c.rate
    requires !Called(calls, c.topic) || c.now >= Latest(calls, c.topic) + 1000
    ensures Grants(After(calls), c)
  {
    BucketInRange(calls, c.topic, rate);
    SecondFillsBucket(After(calls), c);
  }

  lemma OwnBucketOnly(a: Buckets, b: Buckets, c: Call)
    requires c.topic in a <==> c.topic in b
    requires c.topic in a ==> a[c.topic] == b[c.topic]
    ensures Grants(a, c) == Grants(b, c) && Drawn(a, c)[c.topic] == Drawn(b, c)[c.topic]
  {}

  lemma AfterSnoc(calls: seq<Call>, c: Call)
    ensures After(calls + [c]) == Drawn(After(calls), c)
  {
    assert (calls + [c])[..|calls|] == calls;
  }

  function Only(calls: seq<Call>, topic: string): seq<Call> {
    if calls == [] then []
    else
      var front, c := calls[..|calls| - 1], calls[|calls| - 1];
      if c.topic == topic then Only(front, topic) + [c] else Only(front, topic)
  }

  /** Topics do not share tokens: a topic's bucket is what its own calls made of it. */
  lemma {:induction false} OtherTopicsDoNotMatter(calls: seq<Call>, topic: string)
    ensures topic in After(calls) <==> topic in After(Only(calls, topic))
    ensures topic in After(calls) ==> After(calls)[topic] == After(Only(calls, topic))[topic]
  {
    if calls != [] {
      var front, c := calls[..|calls| - 1], calls[|calls| - 1];
      OtherTopicsDoNotMatter(front, topic);
      if c.topic == topic {
        OwnBucketOnly(After(front), After(Only(front, topic)), c);
        AfterSnoc(Only(front, topic), c);
      }
    }
  }
}
