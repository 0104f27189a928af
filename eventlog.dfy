/** The order the pad promises for its callbacks, as a grammar of event logs:
    hits and releases alternate, starting with a hit, and a terminal zero
    pressure event of each kind only answers an earlier non-zero one. */
module EventLog {
  import opened PadSpec

  /** What a log owes after its last event: whether a hit is open (not yet
      released), and whether the last confirmed and the last raw pressure
      event had a non-zero step, so that a terminal zero is due. */
  datatype Obligations = Obligations(hitOpen: bool, owesPressure: bool, owesRaw: bool)

  const NoObligations := Obligations(false, false, false)

  /** The obligations after one more event. */
  function Next(o: Obligations, e: Event): Obligations {
    match e
    case HandleHit(_) => o.(hitOpen := true)
    case HandleRelease(_) => o.(hitOpen := false)
    case HandlePressure(_, step) => o.(owesPressure := step != 0)
    case HandlePressureRaw(_, step) => o.(owesRaw := step != 0)
  }

  /** Whether an event may come next: a hit only when none is open, a release
      only when one is, and a zero pressure event only when it is owed. */
  predicate Allowed(o: Obligations, e: Event) {
    match e
    case HandleHit(_) => !o.hitOpen
    case HandleRelease(_) => o.hitOpen
    case HandlePressure(_, step) => step == 0 ==> o.owesPressure
    case HandlePressureRaw(_, step) => step == 0 ==> o.owesRaw
  }

  /** The obligations a whole log leaves. */
  function Summary(log: seq<Event>): Obligations
    decreases |log|
  {
    if log == [] then NoObligations
    else Next(Summary(log[..|log| - 1]), log[|log| - 1])
  }

  /** Every event of the log was allowed after the events before it. */
  predicate WellFormed(log: seq<Event>)
    decreases |log|
  {
    log == [] ||
    (WellFormed(log[..|log| - 1]) && Allowed(Summary(log[..|log| - 1]), log[|log| - 1]))
  }

  /** The obligations after the events of `events`, starting from `o`. */
  function After(o: Obligations, events: seq<Event>): Obligations
    decreases |events|
  {
    if events == [] then o else After(Next(o, events[0]), events[1..])
  }

  /** Every event of `events` is allowed in turn, starting from `o`. */
  predicate AllowedAll(o: Obligations, events: seq<Event>)
    decreases |events|
  {
    events == [] || (Allowed(o, events[0]) && AllowedAll(Next(o, events[0]), events[1..]))
  }

  /** Extending a log by a batch of events: its summary is the batch folded
      over the old summary, and it stays well formed exactly when the batch is
      allowed after the old log. */
  lemma {:induction false} Extend(log: seq<Event>, events: seq<Event>)
    ensures Summary(log + events) == After(Summary(log), events)
    ensures WellFormed(log + events) <==> WellFormed(log) && AllowedAll(Summary(log), events)
    decreases |events|
  {
    if events == [] {
      assert log + events == log;
    } else {
      var longer := log + [events[0]];
      assert longer[..|longer| - 1] == log;
      assert log + events == longer + events[1..];
      Extend(longer, events[1..]);
    }
  }

  /** Folding two batches one after the other is folding their concatenation. */
  lemma {:induction false} AfterConcat(o: Obligations, first: seq<Event>, second: seq<Event>)
    ensures After(o, first + second) == After(After(o, first), second)
    ensures AllowedAll(o, first + second) <==> AllowedAll(o, first) && AllowedAll(After(o, first), second)
    decreases |first|
  {
    if first == [] {
      assert first + second == second;
    } else {
      assert (first + second)[1..] == first[1..] + second;
      AfterConcat(Next(o, first[0]), first[1..], second);
    }
  }

  /** Appending two batches one after the other appends their concatenation. */
  lemma AppendTwice(log: seq<Event>, first: seq<Event>, second: seq<Event>)
    ensures (log + first) + second == log + (first + second)
  {
  }

  /** Every prefix of a well-formed log is well formed, and the event after it
      was allowed. */
  lemma {:induction false} PrefixWellFormed(log: seq<Event>, i: nat)
    requires WellFormed(log) && i < |log|
    ensures WellFormed(log[..i]) && Allowed(Summary(log[..i]), log[i])
    decreases |log|
  {
    var init := log[..|log| - 1];
    if i < |log| - 1 {
      assert init[..i] == log[..i] && init[i] == log[i];
      PrefixWellFormed(init, i);
    }
  }

  /** An open hit is a hit event with no release and no other hit after it. */
  lemma {:induction false} OpenHitIsLastHit(log: seq<Event>)
    requires Summary(log).hitOpen
    ensures exists j :: 0 <= j < |log| && log[j].HandleHit? &&
              forall k :: j < k < |log| ==> !log[k].HandleHit? && !log[k].HandleRelease?
    decreases |log|
  {
    var n := |log| - 1;
    var init := log[..n];
    if log[n].HandleHit? {
      assert 0 <= n < |log| && log[n].HandleHit?;
    } else {
      assert Summary(init).hitOpen;
      OpenHitIsLastHit(init);
      var j :| 0 <= j < |init| && init[j].HandleHit? &&
                forall k :: j < k < |init| ==> !init[k].HandleHit? && !init[k].HandleRelease?;
      assert log[j] == init[j];
      assert forall k :: j < k < n ==> log[k] == init[k];
    }
  }

  /** A hit not followed by a release leaves a hit open. */
  lemma {:induction false} UnreleasedHitIsOpen(log: seq<Event>, j: nat)
    requires j < |log| && log[j].HandleHit?
    requires forall k :: j < k < |log| ==> !log[k].HandleRelease?
    ensures Summary(log).hitOpen
    decreases |log|
  {
    var n := |log| - 1;
    if j < n {
      var init := log[..n];
      assert init[j] == log[j];
      assert forall k :: j < k < n ==> init[k] == log[k];
      UnreleasedHitIsOpen(init, j);
    }
  }

  /** In a well-formed log a hit is never emitted while an earlier one is
      unreleased: between any two hits there is a release. */
  lemma HitAfterRelease(log: seq<Event>, i: nat)
    requires WellFormed(log) && i < |log| && log[i].HandleHit?
    ensures forall j :: 0 <= j < i && log[j].HandleHit? ==>
              exists k :: j < k < i && log[k].HandleRelease?
  {
    PrefixWellFormed(log, i);
    var init := log[..i];
    forall j | 0 <= j < i && log[j].HandleHit?
      ensures exists k :: j < k < i && log[k].HandleRelease?
    {
      if forall k :: j < k < i ==> !log[k].HandleRelease? {
        assert init[j] == log[j];
        assert forall k :: j < k < i ==> init[k] == log[k];
        UnreleasedHitIsOpen(init, j);
        assert false;
      }
    }
  }

  /** In a well-formed log every release answers exactly one hit: there is a
      hit before it with neither a release nor another hit in between. */
  lemma ReleaseAnswersOneHit(log: seq<Event>, i: nat)
    requires WellFormed(log) && i < |log| && log[i].HandleRelease?
    ensures exists j :: 0 <= j < i && log[j].HandleHit? &&
              forall k :: j < k < i ==> !log[k].HandleHit? && !log[k].HandleRelease?
  {
    PrefixWellFormed(log, i);
    OpenHitIsLastHit(log[..i]);
    var j :| 0 <= j < i && log[..i][j].HandleHit? &&
              forall k :: j < k < i ==> !log[..i][k].HandleHit? && !log[..i][k].HandleRelease?;
    assert forall k :: 0 <= k < i ==> log[..i][k] == log[k];
  }
}
