/** The application's configuration: the on-call roster and schedule, the
    Confluence and on-call settings, the JSON document they are stored as,
    and the checks that turn such a document back into a configuration. */
module Models {
  import opened Results

  /** A person on the on-call roster. */
  datatype OnCallPerson = OnCallPerson(name: string, slackUserId: string)

  /** The weekly-report settings. */
  datatype ConfluenceConfig = ConfluenceConfig(
    enabled: bool,
    schedule: string,
    confluenceUrl: string,
    slackChannel: string,
    weeklyReportEnabled: bool,
    weeklyReportSlackChannel: string)

  /** The on-call notification settings. */
  datatype OnCallConfig = OnCallConfig(enabled: bool, schedule: string, slackChannel: string)

  /** The rotation as a value: whose turn it is and who takes turns. */
  datatype ScheduleData = ScheduleData(currentIndex: int, roster: seq<OnCallPerson>)

  /** A whole configuration as a value, as it is saved and compared. */
  datatype ConfigData = ConfigData(confluence: ConfluenceConfig, onCall: OnCallConfig, schedule: ScheduleData)

  const DefaultConfluenceSchedule := "0 10 * * 1"
  const DefaultOnCallSchedule := "0 18 * * 5"

  /** The rotation, an object whose index the on-call job advances in place. */
  class OnCallSchedule {
    var currentIndex: int
    var roster: seq<OnCallPerson>

    constructor (data: ScheduleData)
      ensures currentIndex == data.currentIndex && roster == data.roster
    {
      currentIndex := data.currentIndex;
      roster := data.roster;
    }
  }

  /** The configuration object the services share; the on-call job
      reassigns its schedule. */
  class AppConfig {
    var confluenceConfig: ConfluenceConfig
    var onCallConfig: OnCallConfig
    var onCallSchedule: OnCallSchedule

    constructor (data: ConfigData)
      ensures fresh(onCallSchedule)
      ensures confluenceConfig == data.confluence && onCallConfig == data.onCall
      ensures onCallSchedule.currentIndex == data.schedule.currentIndex
      ensures onCallSchedule.roster == data.schedule.roster
    {
      confluenceConfig := data.confluence;
      onCallConfig := data.onCall;
      onCallSchedule := new OnCallSchedule(data.schedule);
    }
  }

  /** The value an `AppConfig` object holds right now. */
  function Snapshot(c: AppConfig): ConfigData
    reads c, c.onCallSchedule
  {
    ConfigData(c.confluenceConfig, c.onCallConfig,
               ScheduleData(c.onCallSchedule.currentIndex, c.onCallSchedule.roster))
  }

  // ----- the stored document -----

  /** A JSON value as `json.loads` returns it. */
  datatype Json =
    | JNull
    | JBool(b: bool)
    | JInt(i: int)
    | JStr(s: string)
    | JArr(items: seq<Json>)
    | JObj(fields: map<string, Json>)

  /** What `HttpUrl` accepts, up to its normalisation: an `http` or `https`
      scheme followed by a host. */
  predicate IsHttpUrl(s: string) {
    (|s| > 7 && s[..7] == "http://") || (|s| > 8 && s[..8] == "https://")
  }

  /** A configuration whose every field passes validation. */
  predicate WellTyped(c: ConfigData) {
    IsHttpUrl(c.confluence.confluenceUrl)
  }

  /** A boolean field: the default when absent, the value when a JSON boolean. */
  function BoolField(o: map<string, Json>, key: string, default: bool): Option<bool> {
    if key !in o then Some(default)
    else if o[key].JBool? then Some(o[key].b)
    else None
  }

  /** A string field: the default (none for a required field) when absent,
      the value when a JSON string. */
  function StrField(o: map<string, Json>, key: string, default: Option<string>): Option<string> {
    if key !in o then default
    else if o[key].JStr? then Some(o[key].s)
    else None
  }

  /** An object field, required. */
  function ObjField(o: map<string, Json>, key: string): Option<map<string, Json>> {
    if key in o && o[key].JObj? then Some(o[key].fields) else None
  }

  function ValidatePerson(j: Json): Option<OnCallPerson> {
    if !j.JObj? then None
    else
      var name := StrField(j.fields, "name", None);
      var id := StrField(j.fields, "slack_user_id", None);
      if name.Some? && id.Some? then Some(OnCallPerson(name.value, id.value)) else None
  }

  /** A roster list: every entry must be a valid person. */
  function ValidateRoster(items: seq<Json>): (r: Option<seq<OnCallPerson>>)
    ensures r.Some? ==> |r.value| == |items|
    ensures r.Some? <==> forall k :: 0 <= k < |items| ==> ValidatePerson(items[k]).Some?
  {
    if items == [] then Some([])
    else
      match (ValidatePerson(items[0]), ValidateRoster(items[1..]))
      case (Some(p), Some(rest)) => Some([p] + rest)
      case _ => None
  }

  function ValidateSchedule(o: map<string, Json>): Option<ScheduleData> {
    var index :=
      if "current_index" !in o then Some(0)
      else if o["current_index"].JInt? then Some(o["current_index"].i)
      else None;
    var roster :=
      if "roster" !in o then Some([])
      else if o["roster"].JArr? then ValidateRoster(o["roster"].items)
      else None;
    if index.Some? && roster.Some? then Some(ScheduleData(index.value, roster.value)) else None
  }

  function ValidateConfluence(o: map<string, Json>): Option<ConfluenceConfig> {
    var enabled := BoolField(o, "enabled", false);
    var schedule := StrField(o, "schedule", Some(DefaultConfluenceSchedule));
    var url := StrField(o, "confluence_url", None);
    var channel := StrField(o, "slack_channel", None);
    var weekly := BoolField(o, "weekly_report_enabled", false);
    var weeklyChannel := StrField(o, "weekly_report_slack_channel", Some(""));
    if enabled.Some? && schedule.Some? && url.Some? && IsHttpUrl(url.value) && channel.Some?
       && weekly.Some? && weeklyChannel.Some?
    then Some(ConfluenceConfig(enabled.value, schedule.value, url.value, channel.value, weekly.value, weeklyChannel.value))
    else None
  }

  function ValidateOnCall(o: map<string, Json>): Option<OnCallConfig> {
    var enabled := BoolField(o, "enabled", false);
    var schedule := StrField(o, "schedule", Some(DefaultOnCallSchedule));
    var channel := StrField(o, "slack_channel", None);
    if enabled.Some? && schedule.Some? && channel.Some?
    then Some(OnCallConfig(enabled.value, schedule.value, channel.value))
    else None
  }

  /** `AppConfig(**data)`: a configuration when the document is an object
      whose three sections validate, keys outside the model ignored. */
  function Validate(doc: Json): (r: Option<ConfigData>)
    ensures r.Some? ==> WellTyped(r.value)
  {
    if !doc.JObj? then None
    else
      var confluence := ObjField(doc.fields, "confluence_config");
      var onCall := ObjField(doc.fields, "on_call_config");
      var schedule := ObjField(doc.fields, "on_call_schedule");
      if confluence.None? || onCall.None? || schedule.None? then None
      else
        var c := ValidateConfluence(confluence.value);
        var n := ValidateOnCall(onCall.value);
        var s := ValidateSchedule(schedule.value);
        if c.Some? && n.Some? && s.Some? then Some(ConfigData(c.value, n.value, s.value)) else None
  }

  function DumpPerson(p: OnCallPerson): Json {
    JObj(map["name" := JStr(p.name), "slack_user_id" := JStr(p.slackUserId)])
  }

  function DumpRoster(roster: seq<OnCallPerson>): (r: seq<Json>)
    ensures |r| == |roster|
  {
    if roster == [] then [] else [DumpPerson(roster[0])] + DumpRoster(roster[1..])
  }

  /** `model_dump(mode='json')`: every field of the model under its own key. */
  function Dump(c: ConfigData): Json {
    JObj(map[
      "confluence_config" := JObj(DumpConfluence(c.confluence)),
      "on_call_config" := JObj(DumpOnCall(c.onCall)),
      "on_call_schedule" := JObj(DumpSchedule(c.schedule))])
  }

  function DumpConfluence(c: ConfluenceConfig): map<string, Json> {
    map[
      "enabled" := JBool(c.enabled),
      "schedule" := JStr(c.schedule),
      "confluence_url" := JStr(c.confluenceUrl),
      "slack_channel" := JStr(c.slackChannel),
      "weekly_report_enabled" := JBool(c.weeklyReportEnabled),
      "weekly_report_slack_channel" := JStr(c.weeklyReportSlackChannel)]
  }

  function DumpOnCall(c: OnCallConfig): map<string, Json> {
    map["enabled" := JBool(c.enabled), "schedule" := JStr(c.schedule), "slack_channel" := JStr(c.slackChannel)]
  }

  function DumpSchedule(s: ScheduleData): map<string, Json> {
    map["current_index" := JInt(s.currentIndex), "roster" := JArr(DumpRoster(s.roster))]
  }

  lemma {:induction false} RosterRoundTrip(roster: seq<OnCallPerson>)
    ensures ValidateRoster(DumpRoster(roster)) == Some(roster)
    decreases |roster|
  {
    if roster != [] {
      RosterRoundTrip(roster[1..]);
      assert DumpRoster(roster)[1..] == DumpRoster(roster[1..]);
      assert [roster[0]] + roster[1..] == roster;
    }
  }

  /** A saved configuration reads back as itself. */
  lemma DumpRoundTrip(c: ConfigData)
    requires WellTyped(c)
    ensures Validate(Dump(c)) == Some(c)
  {
    var o := Dump(c).fields;
    assert ObjField(o, "confluence_config") == Some(DumpConfluence(c.confluence));
    assert ObjField(o, "on_call_config") == Some(DumpOnCall(c.onCall));
    assert ObjField(o, "on_call_schedule") == Some(DumpSchedule(c.schedule));
    ConfluenceRoundTrip(c.confluence);
    OnCallRoundTrip(c.onCall);
    ScheduleRoundTrip(c.schedule);
  }

  lemma ConfluenceRoundTrip(c: ConfluenceConfig)
    requires IsHttpUrl(c.confluenceUrl)
    ensures ValidateConfluence(DumpConfluence(c)) == Some(c)
  {
  }

  lemma OnCallRoundTrip(c: OnCallConfig)
    ensures ValidateOnCall(DumpOnCall(c)) == Some(c)
  {
  }

  lemma ScheduleRoundTrip(s: ScheduleData)
    ensures ValidateSchedule(DumpSchedule(s)) == Some(s)
  {
    RosterRoundTrip(s.roster);
  }

  /** The configuration `get_app_config` falls back to: the placeholder
      Confluence address, empty channels, defaults elsewhere, an empty
      roster and index 0. */
  const DefaultConfig: ConfigData := ConfigData(
    ConfluenceConfig(false, DefaultConfluenceSchedule, "https://example.com", "", false, ""),
    OnCallConfig(false, DefaultOnCallSchedule, ""),
    ScheduleData(0, []))

  /** The fallback configuration passes validation, and the empty document
      a failed load yields does not. */
  lemma DefaultIsValid()
    ensures WellTyped(DefaultConfig)
    ensures Validate(Dump(DefaultConfig)) == Some(DefaultConfig)
    ensures Validate(JObj(map[])) == None
  {
    DumpRoundTrip(DefaultConfig);
  }
}
