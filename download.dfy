/** `make_request` of download.py and its one-stream wrappers: build the request
    parameters, then synchronise inside `folder` with the `cd` context manager. */
module Download {
  import opened Results
  import opened Calendar
  import opened Storage

  /** A `datetime` argument is a valid date-time by construction. */
  predicate ValidTime(t: TimeArg) {
    t.AtTime? ==> Valid(t.dt)
  }

  /** A time parameter as sent: a `datetime` is formatted `%Y-%m-%dT%H:%M:%S` (which Python 2
      refuses before 1900), a string is passed as it is. */
  function ApiTime(t: TimeArg): (r: Result<string>)
    requires Truthy(t) && ValidTime(t)
    ensures t.TimeText? ==> r == Ok(t.s)
    ensures t.AtTime? ==> (r.Err? <==> t.dt.year < 1900)
    ensures t.AtTime? && r.Ok? ==> ParseYmd(r.value, 'T', ':') == Some(t.dt)
  {
    match t
    case AtTime(dt) =>
      if dt.year < 1900 then Err(ValueError)
      else
        ParseFormatYmd(dt, 'T', ':');
        FormatApi(dt)
    case TimeText(s) => Ok(s)
  }

  /** A `datetime` argument that `strftime` refuses. */
  predicate TooEarly(t: TimeArg) {
    t.AtTime? && t.dt.year < 1900
  }

  /** The parameter map `make_request` sends (before the `registry` parameter). */
  function DownloadValues(studyId: string, accessKey: string, secretKey: string, userIds: seq<string>,
                          dataStreams: seq<string>, timeStart: TimeArg, timeEnd: TimeArg): (r: Result<Values>)
    requires ValidTime(timeStart) && ValidTime(timeEnd)
    ensures r.Err? <==> TooEarly(timeStart) || TooEarly(timeEnd)
    ensures r.Err? ==> r.error == ValueError
    ensures r.Ok? ==> && {"access_key", "secret_key", "study_id"} <= r.value.Keys
                      && r.value.Keys <= {"access_key", "secret_key", "study_id", "user_ids", "data_streams", "time_start", "time_end"}
                      && r.value["access_key"] == Str(accessKey) && r.value["secret_key"] == Str(secretKey)
                      && r.value["study_id"] == Str(studyId)
                      && ("user_ids" in r.value <==> userIds != [])
                      && ("user_ids" in r.value ==> r.value["user_ids"] == JsonList(userIds))
                      && ("data_streams" in r.value <==> dataStreams != [])
                      && ("data_streams" in r.value ==> r.value["data_streams"] == JsonList(dataStreams))
                      && ("time_start" in r.value <==> Truthy(timeStart))
                      && ("time_start" in r.value ==> r.value["time_start"] == Str(ApiTime(timeStart).value))
                      && ("time_end" in r.value <==> Truthy(timeEnd))
                      && ("time_end" in r.value ==> r.value["time_end"] == Str(ApiTime(timeEnd).value))
  {
    var v0 := BaseValues(studyId, accessKey, secretKey);
    var v1 := if userIds != [] then v0["user_ids" := JsonList(userIds)] else v0;
    var v2 := if dataStreams != [] then v1["data_streams" := JsonList(dataStreams)] else v1;
    if Truthy(timeStart) && ApiTime(timeStart).Err? then Err(ValueError)
    else
      var v3 := if Truthy(timeStart) then v2["time_start" := Str(ApiTime(timeStart).value)] else v2;
      if Truthy(timeEnd) && ApiTime(timeEnd).Err? then Err(ValueError)
      else Ok(if Truthy(timeEnd) then v3["time_end" := Str(ApiTime(timeEnd).value)] else v3)
  }

  /** Lines 151-167 of `make_request`: the `values` dict filled key by key. */
  method BuildValues(studyId: string, accessKey: string, secretKey: string, userIds: seq<string>,
                     dataStreams: seq<string>, timeStart: TimeArg, timeEnd: TimeArg) returns (r: Result<Values>)
    requires ValidTime(timeStart) && ValidTime(timeEnd)
    ensures r == DownloadValues(studyId, accessKey, secretKey, userIds, dataStreams, timeStart, timeEnd)
  {
    var values := map["access_key" := Str(accessKey), "secret_key" := Str(secretKey), "study_id" := Str(studyId)];
    if userIds != [] {
      values := values["user_ids" := JsonList(userIds)];
    }
    if dataStreams != [] {
      values := values["data_streams" := JsonList(dataStreams)];
    }
    if Truthy(timeStart) {
      var t :- ApiTime(timeStart);
      values := values["time_start" := Str(t)];
    }
    if Truthy(timeEnd) {
      var t :- ApiTime(timeEnd);
      values := values["time_end" := Str(t)];
    }
    return Ok(values);
  }

  /** The directories after `mkdir_p(folder)` (skipped for `.`). */
  function Prepared(dirs: map<string, Dir>, cwd: string, folder: string): (r: map<string, Dir>)
    ensures folder == "." ==> r == dirs
    ensures folder != "." ==> r.Keys == dirs.Keys + {Resolve(cwd, folder)}
    ensures forall d :: d in dirs ==> d in r && r[d] == dirs[d]
    ensures folder != "." && Resolve(cwd, folder) !in dirs ==> r[Resolve(cwd, folder)] == map[]
  {
    var target := Resolve(cwd, folder);
    if folder == "." || target in dirs then dirs else dirs[target := map[]]
  }

  /** What `make_request(...)` leaves behind, from the directories `before` and the working
      directory `cwd` it started in: the directories `after`, the parameters `sent` (none
      when nothing was sent) and the result `r`. */
  ghost predicate Requested(before: map<string, Dir>, cwd: string, after: map<string, Dir>,
                            studyId: string, accessKey: string, secretKey: string, userIds: seq<string>,
                            dataStreams: seq<string>, timeStart: TimeArg, timeEnd: TimeArg, folder: string,
                            returnNew: bool, archive: Option<seq<Member>>,
                            sent: Option<Values>, r: Result<Option<seq<string>>>)
    requires ValidTime(timeStart) && ValidTime(timeEnd)
  {
    var values := DownloadValues(studyId, accessKey, secretKey, userIds, dataStreams, timeStart, timeEnd);
    && (folder == "" ==> sent.None? && r == Err(OSError) && after == before)
    && (folder != "" ==>
          var dirs := Prepared(before, cwd, folder);
          var target := Resolve(cwd, folder);
          target in dirs &&
          if values.Err? then sent.None? && r == Err(values.error) && after == dirs
          else
            var o := Sync(dirs[target], values.value, archive);
            && sent == o.sent
            && after == dirs[target := o.dir]
            && r == if o.result.Err? then Err(o.result.error) else Ok(if returnNew then Some(o.result.value) else None))
    && (sent.Some? ==> values.Ok? && Carries(sent.value, values.value))
  }

  /** `make_request(...)`: `archive` is the server's reply, `None` when the request fails. */
  method MakeRequest(disk: Disk, studyId: string, accessKey: string, secretKey: string, userIds: seq<string>,
                     dataStreams: seq<string>, timeStart: TimeArg, timeEnd: TimeArg, folder: string,
                     returnNew: bool, archive: Option<seq<Member>>)
    returns (sent: Option<Values>, r: Result<Option<seq<string>>>)
    requires disk.Valid() && ValidTime(timeStart) && ValidTime(timeEnd)
    modifies disk
    ensures disk.Valid() && disk.cwd == old(disk.cwd)
    ensures folder == "" ==> sent.None? && r == Err(OSError) && disk.dirs == old(disk.dirs)
    ensures folder != "" ==>
              var dirs := Prepared(old(disk.dirs), old(disk.cwd), folder);
              var target := Resolve(old(disk.cwd), folder);
              var values := DownloadValues(studyId, accessKey, secretKey, userIds, dataStreams, timeStart, timeEnd);
              target in dirs &&
              if values.Err? then sent.None? && r == Err(values.error) && disk.dirs == dirs
              else
                var o := Sync(dirs[target], values.value, archive);
                && sent == o.sent
                && disk.dirs == dirs[target := o.dir]
                && r == if o.result.Err? then Err(o.result.error) else Ok(if returnNew then Some(o.result.value) else None)
    ensures sent.Some? ==> var values := DownloadValues(studyId, accessKey, secretKey, userIds, dataStreams, timeStart, timeEnd);
                           values.Ok? && Carries(sent.value, values.value)
    ensures Requested(old(disk.dirs), old(disk.cwd), disk.dirs, studyId, accessKey, secretKey, userIds, dataStreams,
                      timeStart, timeEnd, folder, returnNew, archive, sent, r)
  {
    if folder != "." {
      var made := disk.MkdirP(folder);
      if made.Err? {
        return None, Err(made.error);
      }
    }
    var here := new Cd(folder);
    var entered := here.Enter(disk);
    var values := BuildValues(studyId, accessKey, secretKey, userIds, dataStreams, timeStart, timeEnd);
    if values.Err? {
      here.Exit(disk);
      return None, Err(values.error);
    }
    var result;
    SyncSends(disk.Here(), values.value, archive);
    sent, result := disk.SyncHere(values.value, archive);
    here.Exit(disk);
    if result.Err? {
      return sent, Err(result.error);
    }
    r := Ok(if returnNew then Some(result.value) else None);
  }

  /** The data streams of the wrappers `download_accel` ... `download_wifi`. */
  datatype Stream = Accel | Audio | Bluetooth | Calls | Gps | Ids | Logs | Power | SurveyAnswers
                  | SurveyTimings | Texts | Wifi

  /** The stream name each wrapper asks for (the module's stream constants). */
  function StreamName(s: Stream): string {
    match s
    case Accel => "accelerometer"
    case Audio => "audio_recordings"
    case Bluetooth => "bluetooth"
    case Calls => "calls"
    case Gps => "gps"
    case Ids => "identifiers"
    case Logs => "app_log"
    case Power => "power_state"
    case SurveyAnswers => "survey_answers"
    case SurveyTimings => "survey_timings"
    case Texts => "texts"
    case Wifi => "wifi"
  }

  /** Every wrapper asks for a different stream. */
  lemma {:induction false} StreamNamesDistinct(a: Stream, b: Stream)
    requires StreamName(a) == StreamName(b)
    ensures a == b
  {
  }

  /** `download_<stream>(...)`: `make_request` with the one stream, `return_new` left
      False, and nothing returned. */
  method DownloadStream(disk: Disk, stream: Stream, studyId: string, accessKey: string, secretKey: string,
                        userIds: seq<string>, timeStart: TimeArg, timeEnd: TimeArg, folder: string,
                        archive: Option<seq<Member>>)
    returns (sent: Option<Values>, r: Result<Option<seq<string>>>)
    requires disk.Valid() && ValidTime(timeStart) && ValidTime(timeEnd)
    modifies disk
    ensures disk.Valid() && disk.cwd == old(disk.cwd)
    ensures Requested(old(disk.dirs), old(disk.cwd), disk.dirs, studyId, accessKey, secretKey, userIds, [StreamName(stream)],
                      timeStart, timeEnd, folder, false, archive, sent, r)
    ensures r.Ok? ==> r.value.None?
    ensures sent.Some? ==> "data_streams" in sent.value && sent.value["data_streams"] == JsonList([StreamName(stream)])
  {
    sent, r := MakeRequest(disk, studyId, accessKey, secretKey, userIds, [StreamName(stream)], timeStart, timeEnd,
                           folder, false, archive);
  }
}
