/** The weekly on-call rotation: announce whose turn it is in the Slack
    channel topic, advance the rotation in place, and save the
    configuration once the announcement went out. */
module OnCallService {
  import opened Results
  import opened Models
  import opened ConfigService

  // ----- the rotation as values -----

  /** Why `notify_on_call_person` raises: an empty roster (ValueError), an
      index below minus the roster length (IndexError), or a failed Slack
      call. */
  datatype NotifyError = EmptyRoster | IndexOutOfRange | SlackFailed

  /** The index after the reset: only an index at or past the end goes
      back to 0. */
  function EffectiveIndex(index: int, n: nat): int {
    if index >= n then 0 else index
  }

  /** The roster position Python's `roster[i]` reads for an index below the
      length: counted from the end when negative, none below `-n`. */
  function Slot(i: int, n: nat): Option<nat>
    requires i < n
  {
    if i >= 0 then Some(i) else if i + n >= 0 then Some(i + n) else None
  }

  /** The person whose turn it is and the index stored for next time, as
      `notify_on_call_person` works them out before and after its Slack call. */
  function Rotation(s: ScheduleData): Result<(OnCallPerson, int), NotifyError> {
    var n := |s.roster|;
    if n == 0 then Err(EmptyRoster)
    else
      var i := EffectiveIndex(s.currentIndex, n);
      match Slot(i, n)
      case None => Err(IndexOutOfRange)
      case Some(p) => Ok((s.roster[p], (i + 1) % n))
  }

  /** `(i + 1) % n` with Python's `%`, which for a positive `n` agrees with
      Dafny's: the next position round the roster. */
  function Advance(i: int, n: nat): (j: int)
    requires 0 < n
    ensures 0 <= j < n
  {
    (i + 1) % n
  }

  /** The rotation fails exactly on an empty roster or an index below minus
      its length; otherwise it names the person at the slot Python reads,
      resetting only an index at or past the end, and the next index is
      the following slot, always within the roster. */
  lemma RotationSelects(s: ScheduleData)
    ensures Rotation(s) == Err(EmptyRoster) <==> s.roster == []
    ensures Rotation(s) == Err(IndexOutOfRange) <==> s.roster != [] && s.currentIndex + |s.roster| < 0
    ensures Rotation(s).Ok? ==>
              var n := |s.roster|;
              var p := Slot(EffectiveIndex(s.currentIndex, n), n).value;
              Rotation(s).value.0 == s.roster[p]
              && Rotation(s).value.1 == Advance(p, n)
              && (s.currentIndex >= n ==> p == 0)
              && (0 <= s.currentIndex < n ==> p == s.currentIndex)
  {
    var n := |s.roster|;
    if n > 0 {
      var i := EffectiveIndex(s.currentIndex, n);
      if i < 0 && i + n >= 0 {
        AdvanceFromEnd(i, n);
      }
    }
  }

  /** Advancing from a negative index and from the position it names agree. */
  lemma AdvanceFromEnd(i: int, n: nat)
    requires 0 < n && 0 <= i + n && i < 0
    ensures (i + 1) % n == Advance(i + n, n)
  {
    var q, r := (i + 1 + n) / n, (i + 1 + n) % n;
    assert i + 1 == n * (q - 1) + r by {
      assert n * (q - 1) == n * q - n;
    }
    ModUnique(i + 1, n, q - 1, r);
  }

  /** The remainder is the one `r` in `[0, n)` with `x == n * q + r`. */
  lemma ModUnique(x: int, n: nat, q: int, r: int)
    requires 0 < n && 0 <= r < n && x == n * q + r
    ensures x % n == r && x / n == q
  {
    var q', r' := x / n, x % n;
    assert n * (q - q') == r' - r by {
      assert n * (q - q') == n * q - n * q';
    }
    if q - q' >= 1 {
      MulAtLeast(n, q - q');
    } else if q' - q >= 1 {
      MulAtLeast(n, q' - q);
    }
  }

  lemma {:induction false} MulAtLeast(n: nat, k: int)
    requires 1 <= k
    ensures n * k >= n
    decreases k
  {
    if k > 1 {
      MulAtLeast(n, k - 1);
      assert n * k == n * (k - 1) + n;
    }
  }

  /** The index after `k` weekly runs from `i`. */
  function Steps(i: int, k: nat, n: nat): int
    requires 0 < n
  {
    if k == 0 then i else Advance(Steps(i, k - 1, n), n)
  }

  /** After `k` runs from an in-range index the rotation has moved on `k`
      places round the roster. */
  lemma {:induction false} StepsMoveOn(i: int, k: nat, n: nat)
    requires 0 <= i < n
    ensures Steps(i, k, n) == (i + k) % n
  {
    if k == 0 {
      ModUnique(i, n, 0, i);
    } else {
      StepsMoveOn(i, k - 1, n);
      NextRemainder(i + k, n);
    }
  }

  /** Advancing the remainder of `x - 1` gives the remainder of `x`. */
  lemma NextRemainder(x: int, n: nat)
    requires 0 < n
    ensures ((x - 1) % n + 1) % n == x % n
  {
    var q, r := (x - 1) / n, (x - 1) % n;
    if r + 1 < n {
      ModUnique(r + 1, n, 0, r + 1);
      ModUnique(x, n, q, r + 1);
    } else {
      ModUnique(r + 1, n, 1, 0);
      assert x == n * (q + 1) + 0 by {
        assert n * (q + 1) == n * q + n;
      }
      ModUnique(x, n, q + 1, 0);
    }
  }

  /** The indices of one full cycle of `n` runs from `i`, in order. */
  function Cycle(i: int, n: nat): (c: seq<int>)
    requires 0 < n
    ensures |c| == n
  {
    seq(n, k requires 0 <= k < n => Steps(i, k, n))
  }

  /** `n` runs from an in-range index come back to it. */
  lemma FullCycle(i: int, n: nat)
    requires 0 <= i < n
    ensures Steps(i, n, n) == i
  {
    StepsMoveOn(i, n, n);
    ModUnique(i + n, n, 1, i);
  }

  /** Within one cycle from an in-range index every roster position has its
      turn exactly once, moving on one place at a time. */
  lemma CycleVisitsEach(i: int, n: nat)
    requires 0 <= i < n
    ensures forall k :: 0 <= k < n ==> Cycle(i, n)[k] == (i + k) % n
    ensures forall p :: 0 <= p < n ==> p in Cycle(i, n)
    ensures forall k1, k2 :: 0 <= k1 < k2 < n ==> Cycle(i, n)[k1] != Cycle(i, n)[k2]
  {
    var c := Cycle(i, n);
    forall k | 0 <= k < n
      ensures c[k] == (i + k) % n
    {
      StepsMoveOn(i, k, n);
    }
    forall p | 0 <= p < n
      ensures p in c
    {
      var k := if i <= p then p - i else p - i + n;
      ModUnique(i + k, n, if i <= p then 0 else 1, p);
      assert c[k] == p;
    }
    forall k1, k2 | 0 <= k1 < k2 < n
      ensures c[k1] != c[k2]
    {
      var a, b := i + k1, i + k2;
      ModUnique(a, n, if a < n then 0 else 1, if a < n then a else a - n);
      ModUnique(b, n, if b < n then 0 else 1, if b < n then b else b - n);
    }
  }

  // ----- Slack -----

  /** The channel topics set so far, and whether the next Slack call
      succeeds. */
  class Slack {
    var topics: seq<(string, string)>
    var available: bool

    constructor (available0: bool)
      ensures topics == [] && available == available0
    {
      topics := [];
      available := available0;
    }

    /** `update_channel_description`: sets the topic, or raises and sets
        nothing. */
    method UpdateChannelDescription(channel: string, description: string) returns (ok: bool)
      modifies this
      ensures ok == old(available) && available == old(available)
      ensures topics == if ok then old(topics) + [(channel, description)] else old(topics)
    {
      ok := available;
      if ok {
        topics := topics + [(channel, description)];
      }
    }
  }

  /** The channel topic naming the person on call. */
  function Topic(person: OnCallPerson): string {
    ":uia_cat: 本週值班人員: " + person.name
  }

  /** `notify_on_call_person`: checks the roster, picks the person, sets the
      channel topic and only then advances the index of the same schedule
      object, which it returns; the roster never changes. */
  method NotifyOnCallPerson(slack: Slack, config: OnCallConfig, schedule: OnCallSchedule)
    returns (r: Result<(OnCallPerson, OnCallSchedule), NotifyError>)
    modifies slack, schedule
    ensures schedule.roster == old(schedule.roster) && slack.available == old(slack.available)
    ensures var spec := Rotation(ScheduleData(old(schedule.currentIndex), old(schedule.roster)));
      (spec.Err? ==>
         r == Err(spec.error) && slack.topics == old(slack.topics)
         && schedule.currentIndex == old(schedule.currentIndex))
      && (spec.Ok? && !old(slack.available) ==>
         r == Err(SlackFailed) && slack.topics == old(slack.topics)
         && schedule.currentIndex == old(schedule.currentIndex))
      && (spec.Ok? && old(slack.available) ==>
         r == Ok((spec.value.0, schedule)) && schedule.currentIndex == spec.value.1
         && slack.topics == old(slack.topics) + [(config.slackChannel, Topic(spec.value.0))])
  {
    var n := |schedule.roster|;
    if n == 0 {
      return Err(EmptyRoster);
    }
    var currentIndex := schedule.currentIndex;
    if currentIndex >= n {
      currentIndex := 0;
    }
    if currentIndex + n < 0 {
      return Err(IndexOutOfRange);
    }
    var person := schedule.roster[if currentIndex >= 0 then currentIndex else currentIndex + n];
    var ok := slack.UpdateChannelDescription(config.slackChannel, Topic(person));
    if !ok {
      return Err(SlackFailed);
    }
    schedule.currentIndex := (currentIndex + 1) % n;
    return Ok((person, schedule));
  }

  // ----- the job -----

  /** What `run_oncall_notification_job` reports on success. */
  datatype JobOutcome = Disabled | Notified(person: OnCallPerson)

  /** Why it raises: the configuration could not be initialised, the
      notification failed, or the save after it failed. */
  datatype JobError = ConfigUnavailable | NotifyFailed(reason: NotifyError) | SaveFailedAfterNotify

  /** What one run does to a configuration: its result, the configuration
      the shared object then holds, the topic it set, if any, and whether it
      saved. */
  datatype JobEffect = JobEffect(
    result: Result<JobOutcome, JobError>,
    config: ConfigData,
    topic: Option<(string, string)>,
    saved: bool)

  /** One run of the job on configuration `c`, given whether Slack and the
      store accept the calls. */
  function Job(c: ConfigData, slackUp: bool, storeUp: bool): JobEffect {
    if !c.onCall.enabled then JobEffect(Ok(Disabled), c, None, false)
    else
      match Rotation(c.schedule)
      case Err(e) => JobEffect(Err(NotifyFailed(e)), c, None, false)
      case Ok((person, next)) =>
        if !slackUp then JobEffect(Err(NotifyFailed(SlackFailed)), c, None, false)
        else
          var advanced := c.(schedule := c.schedule.(currentIndex := next));
          JobEffect(if storeUp then Ok(Notified(person)) else Err(SaveFailedAfterNotify),
                    advanced, Some((c.onCall.slackChannel, Topic(person))), storeUp)
  }

  /** A disabled job neither notifies nor saves; the job saves only after
      the topic was set; a failed notification leaves the configuration as
      it was and saves nothing; and a saved configuration differs from the
      old one only in an index that now lies within the roster. */
  lemma JobSavesOnlyAfterNotify(c: ConfigData, slackUp: bool, storeUp: bool)
    ensures var e := Job(c, slackUp, storeUp);
      (!c.onCall.enabled ==> e.result == Ok(Disabled) && e.topic.None? && !e.saved && e.config == c)
      && (e.saved ==> e.topic.Some? && e.result.Ok?)
      && (e.result.Err? && e.result.error.NotifyFailed? ==> e.topic.None? && !e.saved && e.config == c)
      && (e.saved ==>
            e.config.onCall == c.onCall && e.config.confluence == c.confluence
            && e.config.schedule.roster == c.schedule.roster
            && 0 <= e.config.schedule.currentIndex < |c.schedule.roster|)
  {
  }

  /** The index stored by each enabled run stays within the roster, so runs
      that succeed one after another from an in-range index walk the roster
      in order. */
  lemma JobAdvancesInOrder(c: ConfigData, storeUp: bool)
    requires c.onCall.enabled && 0 <= c.schedule.currentIndex < |c.schedule.roster|
    ensures var e := Job(c, true, storeUp);
      e.topic == Some((c.onCall.slackChannel, Topic(c.schedule.roster[c.schedule.currentIndex])))
      && e.config.schedule.currentIndex == Steps(c.schedule.currentIndex, 1, |c.schedule.roster|)
  {
  }

  /** The store's document after `get_app_config`: the default is written
      only when the cache was empty and the stored document did not validate. */
  function BlobAfterGet(cached: bool, blob: Option<Json>, writable: bool): Option<Json> {
    if !cached && Validate(Loaded(blob)).None? && writable then Some(Dump(DefaultConfig)) else blob
  }

  /** `run_oncall_notification_job` on the model: reads the configuration
      through the cache, stops when on-call is disabled, notifies, points
      the configuration at the advanced schedule and saves it. The schedule
      is advanced in the cached object itself, so it stays advanced when the
      save fails. */
  method RunOnCallNotificationJob(cache: ConfigCache, slack: Slack) returns (r: Result<JobOutcome, JobError>)
    modifies cache, cache.store, slack
    modifies if cache.instance == null then {} else {cache.instance, cache.instance.onCallSchedule}
    ensures cache.instance != null
    ensures old(cache.instance) != null ==> cache.instance == old(cache.instance)
    ensures old(cache.instance) == null && Validate(Loaded(old(cache.store.blob))).None? && !old(cache.store.writable) ==>
              r == Err(ConfigUnavailable) && slack.topics == old(slack.topics)
              && Snapshot(cache.instance) == DefaultConfig && cache.store.blob == old(cache.store.blob)
    ensures !(old(cache.instance) == null && Validate(Loaded(old(cache.store.blob))).None? && !old(cache.store.writable)) ==>
              var start := if old(cache.instance) != null then old(Snapshot(cache.instance)) else LoadedConfig(old(cache.store.blob));
              var e := Job(start, old(slack.available), old(cache.store.writable));
              r == e.result && Snapshot(cache.instance) == e.config
              && slack.topics == old(slack.topics) + (if e.topic.Some? then [e.topic.value] else [])
              && cache.store.blob == (if e.saved then Some(Dump(e.config))
                                      else BlobAfterGet(old(cache.instance) != null, old(cache.store.blob), old(cache.store.writable)))
  {
    var got := cache.GetAppConfig();
    if got.Err? {
      DefaultIsValid();
      return Err(ConfigUnavailable);
    }
    var appConfig := got.value;
    var onCallConfig := appConfig.onCallConfig;
    if !onCallConfig.enabled {
      return Ok(Disabled);
    }
    var notified := NotifyOnCallPerson(slack, onCallConfig, appConfig.onCallSchedule);
    if notified.Err? {
      return Err(NotifyFailed(notified.error));
    }
    var (person, updatedSchedule) := notified.value;
    appConfig.onCallSchedule := updatedSchedule;
    var saved := cache.SaveAppConfig(appConfig);
    if saved.Err? {
      return Err(SaveFailedAfterNotify);
    }
    return Ok(Notified(person));
  }
}
