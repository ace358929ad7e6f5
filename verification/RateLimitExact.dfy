/** Which calls of a client get through, exactly, said about times and answers alone. */
module RateLimitExact {
  import opened Recency
  import opened RateLimit
  import opened RateLimitRecency

  ghost predicate Ascending(times: seq<real>) {
    forall i, j :: 0 <= i < j < |times| ==> times[i] <= times[j]
  }

  function Granted(answers: seq<bool>): nat {
    if answers == [] then 0 else (if answers[0] then 1 else 0) + Granted(answers[1..])
  }

  /** One more call at time i is within the allowance of the stretch that began with call j:
      a full bucket, and what has come in since. */
  predicate WithinSince(l: Limits, times: seq<real>, answers: seq<bool>, j: nat, i: nat)
    requires j <= i < |times| && |answers| == |times|
  {
    Granted(answers[j..i]) as real + 1.0 <= l.capacity + Gain(l, times[i] - times[j])
  }

  /** The same for the stretch from the first call, begun with some balance. */
  predicate WithinBalance(l: Limits, balance: real, times: seq<real>, answers: seq<bool>, i: nat)
    requires i < |times| && |answers| == |times|
  {
    Granted(answers[..i]) as real + 1.0 <= balance + Gain(l, times[i] - times[0])
  }

  /** The tokens on hand when the first of the calls comes. */
  function Opening(l: Limits, b: Tracked, now: real): real {
    match b
    case Untracked => l.capacity
    case Tracked(bucket) => Refill(l, bucket, now).tokens
  }

  ghost predicate Sound(l: Limits, b: Tracked, times: seq<real>) {
    b.Tracked? && times != [] ==> 0.0 <= b.bucket.tokens <= l.capacity && b.bucket.last <= times[0]
  }

  lemma {:induction false} AnswersCount(l: Limits, b: Tracked, times: seq<real>)
    ensures |SoloAnswers(l, b, times)| == |times|
    decreases |times|
  {
    if times != [] {
      hide Take, Refill;
      var r := Take(Refill(l, if b.Tracked? then b.bucket else Bucket(l.capacity, times[0]), times[0]));
      AnswersCount(l, Tracked(r.0), times[1..]);
    }
  }

  /** The first call, and what is on hand at the next. */
  lemma FirstCall(l: Limits, b: Tracked, times: seq<real>)
    requires Sane(l) && times != [] && Ascending(times) && Sound(l, b, times)
    ensures var r := Take(Refill(l, if b.Tracked? then b.bucket else Bucket(l.capacity, times[0]), times[0]));
            var balance := Opening(l, b, times[0]);
            && SoloAnswers(l, b, times) == [r.1] + SoloAnswers(l, Tracked(r.0), times[1..])
            && 0.0 <= balance <= l.capacity && (r.1 <==> balance >= 1.0) && Sound(l, Tracked(r.0), times[1..])
            && (|times| > 1 ==>
                  Opening(l, Tracked(r.0), times[1])
                  == Min(l.capacity, balance - (if r.1 then 1.0 else 0.0) + Gain(l, times[1] - times[0])))
  {
    hide Gain;
    if b.Tracked? {
      RefillBounds(l, b.bucket, times[0]);
    } else {
      RefillBounds(l, Bucket(l.capacity, times[0]), times[0]);
    }
    GainSign(l, 0.0);
    var r := Take(Refill(l, if b.Tracked? then b.bucket else Bucket(l.capacity, times[0]), times[0]));
    if |times| > 1 { RefillBounds(l, r.0, times[1]); }
  }

  lemma GrantedNext(answers: seq<bool>, i: nat)
    requires 0 < i <= |answers|
    ensures Granted(answers[..i]) == (if answers[0] then 1 else 0) + Granted(answers[1..][..i - 1])
  {
    assert answers[..i][1..] == answers[1..][..i - 1];
  }

  lemma NothingGranted(answers: seq<bool>, i: nat)
    requires i <= |answers|
    ensures Granted(answers[i..i]) == 0
  {
  }

  lemma NoGain(l: Limits, t: real)
    ensures Gain(l, t - t) == 0.0
  {
  }

  /** The calls behind the first, seen from the second. */
  lemma WithinTail(l: Limits, times: seq<real>, answers: seq<bool>, j: nat, i: nat)
    requires 0 < j <= i < |times| && |answers| == |times|
    ensures WithinSince(l, times, answers, j, i) <==> WithinSince(l, times[1..], answers[1..], j - 1, i - 1)
  {
    hide Gain, Granted;
    assert answers[1..][j - 1..i - 1] == answers[j..i];
  }

  /** The balance of the second call stands for that of the first and for a full bucket at
      the second. */
  lemma BalanceTail(l: Limits, balance: real, times: seq<real>, answers: seq<bool>, i: nat)
    requires 0 < i < |times| && |answers| == |times|
    ensures var next := Min(l.capacity, balance - (if answers[0] then 1.0 else 0.0) + Gain(l, times[1] - times[0]));
            WithinBalance(l, next, times[1..], answers[1..], i - 1)
            <==> WithinBalance(l, balance, times, answers, i) && WithinSince(l, times, answers, 1, i)
  {
    hide Gain, Granted;
    GrantedNext(answers, i);
    assert answers[1..][..i - 1] == answers[1..i];
    GainAdds(l, times[1] - times[0], times[i] - times[1]);
    assert times[1] - times[0] + (times[i] - times[1]) == times[i] - times[0];
  }

  ghost predicate AlwaysWithin(l: Limits, times: seq<real>, answers: seq<bool>, i: nat)
    requires i < |times| && |answers| == |times|
  {
    forall j :: 0 <= j <= i ==> WithinSince(l, times, answers, j, i)
  }

  lemma AlwaysWithinTail(l: Limits, balance: real, times: seq<real>, answers: seq<bool>, i: nat)
    requires 0 < i < |times| && |answers| == |times| && balance <= l.capacity
    requires WithinBalance(l, balance, times, answers, i)
    ensures AlwaysWithin(l, times, answers, i) <==> AlwaysWithin(l, times[1..], answers[1..], i - 1)
  {
    hide WithinSince;
    assert WithinSince(l, times, answers, 0, i) by { BalanceIsLess(l, balance, times, answers, i); }
    forall j | 0 < j <= i { WithinTail(l, times, answers, j, i); }
    if AlwaysWithin(l, times[1..], answers[1..], i - 1) {
      forall j | 0 <= j <= i ensures WithinSince(l, times, answers, j, i) {
        if j > 0 { assert WithinSince(l, times[1..], answers[1..], j - 1, i - 1); }
      }
    }
    if AlwaysWithin(l, times, answers, i) {
      var ts, answered, last := times[1..], answers[1..], i - 1;
      forall j | 0 <= j <= last ensures WithinSince(l, ts, answered, j, last) {
        assert WithinSince(l, times, answers, j + 1, i);
      }
    }
  }

  lemma BalanceIsLess(l: Limits, balance: real, times: seq<real>, answers: seq<bool>, i: nat)
    requires i < |times| && |answers| == |times| && balance <= l.capacity && WithinBalance(l, balance, times, answers, i)
    ensures WithinSince(l, times, answers, 0, i)
  {
    hide Gain, Granted;
    assert answers[..i] == answers[0..i];
  }

  lemma {:induction false} SoloExactly(l: Limits, b: Tracked, times: seq<real>, i: nat)
    requires Sane(l) && i < |times| && Ascending(times) && Sound(l, b, times)
    ensures |SoloAnswers(l, b, times)| == |times|
    ensures var answers := SoloAnswers(l, b, times);
            answers[i] <==> WithinBalance(l, Opening(l, b, times[0]), times, answers, i) && AlwaysWithin(l, times, answers, i)
    decreases |times|
  {
    hide Gain, Granted, Refill, Take, WithinSince, WithinBalance, SoloAnswers, Opening;
    AnswersCount(l, b, times);
    FirstCall(l, b, times);
    var answers, balance := SoloAnswers(l, b, times), Opening(l, b, times[0]);
    var r := Take(Refill(l, if b.Tracked? then b.bucket else Bucket(l.capacity, times[0]), times[0]));
    if i == 0 {
      AtOnce(l, balance, times, answers);
    } else {
      assert answers[1..] == SoloAnswers(l, Tracked(r.0), times[1..]);
      SoloExactly(l, Tracked(r.0), times[1..], i - 1);
      BalanceTail(l, balance, times, answers, i);
      WithinTail(l, times, answers, 1, i);
      if WithinBalance(l, balance, times, answers, i) { AlwaysWithinTail(l, balance, times, answers, i); }
      assert AlwaysWithin(l, times[1..], answers[1..], i - 1) ==> WithinSince(l, times[1..], answers[1..], 0, i - 1);
    }
  }

  lemma AtOnce(l: Limits, balance: real, times: seq<real>, answers: seq<bool>)
    requires times != [] && |answers| == |times| && balance <= l.capacity
    ensures WithinBalance(l, balance, times, answers, 0) && AlwaysWithin(l, times, answers, 0) <==> balance >= 1.0
  {
    hide Gain;
    NoGain(l, times[0]);
    NothingGranted(answers, 0);
    assert answers[..0] == answers[0..0];
  }

  /** From the empty table, while a client is not evicted and the clock does not go back, one
      of its calls is allowed exactly if, for every stretch from one of its calls up to this
      one, those allowed and this one together come to no more than a full bucket plus the
      refill of the time in between. */
  lemma AllowedExactlyWithinRate(l: Limits, calls: seq<Call>, k: string, i: nat)
    requires Sane(l) && Evictions(l, FRESH, calls, k) == 0 && Chronological(FRESH, calls)
    requires i < |Times(calls, k)|
    ensures var times, answers := Times(calls, k), Answers(l, FRESH, calls, k);
            && |answers| == |times|
            && (answers[i] <==>
                  forall j :: 0 <= j <= i ==> Granted(answers[j..i]) as real + 1.0 <= l.capacity + (times[i] - times[j]) * l.rate)
  {
    hide SoloAnswers, Granted, Evictions, Answers, WithinSince, Gain;
    var times, answers := Times(calls, k), Answers(l, FRESH, calls, k);
    FreshIsValid(l);
    ClientsAreIsolated(l, FRESH, calls, k);
    TimesAscend(calls, k);
    SoloExactly(l, Untracked, times, i);
    WholeStretch(l, times, answers, i);
    hide WithinBalance;
    assert AlwaysWithin(l, times, answers, i) ==> WithinSince(l, times, answers, 0, i);
    forall j | 0 <= j <= i { WithinIs(l, times, answers, j, i); }
  }

  lemma WholeStretch(l: Limits, times: seq<real>, answers: seq<bool>, i: nat)
    requires i < |times| && |answers| == |times|
    ensures WithinBalance(l, l.capacity, times, answers, i) <==> WithinSince(l, times, answers, 0, i)
  {
    hide Gain, Granted;
    assert answers[..i] == answers[0..i];
  }

  lemma WithinIs(l: Limits, times: seq<real>, answers: seq<bool>, j: nat, i: nat)
    requires j <= i < |times| && |answers| == |times|
    ensures WithinSince(l, times, answers, j, i) <==>
              Granted(answers[j..i]) as real + 1.0 <= l.capacity + (times[i] - times[j]) * l.rate
  {
    hide Granted;
  }

  lemma FreshIsValid(l: Limits)
    ensures Valid(l, FRESH)
  {
  }

  lemma {:induction false} TimesAscend(calls: seq<Call>, k: string)
    requires forall i, j :: 0 <= i < j < |calls| ==> calls[i].at <= calls[j].at
    ensures Ascending(Times(calls, k)) && forall t :: t in Times(calls, k) && calls != [] ==> calls[0].at <= t
  {
    if calls != [] {
      var rest := calls[1..];
      TimesAscend(rest, k);
      var times := Times(rest, k);
      forall t | t in times ensures calls[0].at <= t {
        if rest != [] { assert calls[0].at <= calls[1].at == rest[0].at <= t; }
      }
      assert forall j :: 0 <= j < |times| ==> times[j] in times;
    }
  }
}
