/**
 * A validation result: the dictionary the checker produces for one proxy and that the
 * pool, the server and the window pass around, with the score the window adds to it.
 */
module Records {
  import opened Wrappers

  /** A measured time in seconds; a measurement that took place took some time. */
  type Duration = x: real | x > 0.0 witness 1.0

  datatype Status = Working | Failed

  datatype Anonymity = Unknown | Transparent | Anonymous | Elite

  /**
   * The keys 'proxy', 'protocol', 'status', 'latency', 'speed', 'anonymity', 'location'
   * and, once the window has scored it, 'score'. A latency of None stands for float('inf').
   */
  datatype Record = Record(
    address: string,
    protocol: string,
    status: Status,
    latency: Option<Duration>,
    speed: real,
    anonymity: Anonymity,
    location: string,
    score: Option<real>)

  /** The anonymity bonus of the score. */
  function Bonus(a: Anonymity): real {
    if a == Elite then 50.0 else if a == Anonymous then 20.0 else 0.0
  }

  /** The window's score: 50 per inverse second of latency, 10 per Mbps, and the anonymity bonus. */
  function Score(latency: Option<Duration>, speed: real, anonymity: Anonymity): real {
    (if latency.Some? then 50.0 / latency.value else 0.0) + speed * 10.0 + Bonus(anonymity)
  }

  /** The result with its score written into it, as the window does before pooling it. */
  function Scored(r: Record): (s: Record)
    ensures s.score == Some(Score(r.latency, r.speed, r.anonymity))
    ensures s.(score := r.score) == r
  {
    r.(score := Some(Score(r.latency, r.speed, r.anonymity)))
  }

  /** A faster proxy scores higher, all else equal. */
  lemma ScoreFallsWithLatency(a: Duration, b: Duration, speed: real, anonymity: Anonymity)
    requires a < b
    ensures Score(Some(a), speed, anonymity) > Score(Some(b), speed, anonymity)
  {
    var x, y := 50.0 / a, 50.0 / b;
    assert x * a == 50.0 && y * b == 50.0;
    assert y > 0.0;
    assert y * a < y * b;
    assert (x - y) * a > 0.0;
  }

  /** An unmeasured latency contributes nothing, so any measured one scores higher. */
  lemma MeasuredBeatsInfinite(a: Duration, speed: real, anonymity: Anonymity)
    ensures Score(Some(a), speed, anonymity) > Score(None, speed, anonymity)
  {
    assert 50.0 / a > 0.0;
  }

  /** Elite beats Anonymous beats the other classes, all else equal. */
  lemma BonusOrder(latency: Option<Duration>, speed: real)
    ensures Score(latency, speed, Elite) == Score(latency, speed, Anonymous) + 30.0
    ensures Score(latency, speed, Anonymous) == Score(latency, speed, Transparent) + 20.0
    ensures Score(latency, speed, Transparent) == Score(latency, speed, Unknown)
  {
  }

  /** Worked values: 0.1 s, 52 Mbps and Elite give 500 + 520 + 50; nothing measured gives 0. */
  lemma ScoreExamples()
    ensures Score(Some(0.1), 52.0, Elite) == 1070.0
    ensures Score(None, 0.0, Unknown) == 0.0
    ensures Score(Some(2.0), 0.0, Anonymous) == 45.0
  {
  }

  /** The pool's premium test: latency * 1000 < 2000, false for an infinite latency. */
  predicate IsPremium(r: Record) {
    r.latency.Some? && r.latency.value * 1000.0 < 2000.0
  }

  /** The window's high-quality list filter: latency <= 2.0. */
  predicate ShownAsHighQuality(r: Record) {
    r.latency.Some? && r.latency.value <= 2.0
  }

  /** The two quality tests disagree exactly on proxies whose latency is 2.0 seconds. */
  lemma QualityFiltersDiffer(r: Record)
    ensures ShownAsHighQuality(r) && !IsPremium(r) <==> r.latency == Some(2.0)
    ensures IsPremium(r) ==> ShownAsHighQuality(r)
  {
  }
}
