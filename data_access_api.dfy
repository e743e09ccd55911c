/** `make_request` of data_access_api.py: the older copy of the protocol, which works in
    the current directory, passes its arguments without encoding and returns nothing. */
module DataAccessApi {
  import opened Results
  import opened Storage
  import Download

  /** The parameter map this copy sends (before the `registry` parameter): lists and
      times are passed as they were given, when truthy. */
  function ApiValues(studyId: string, accessKey: string, secretKey: string, userIds: seq<string>,
                     dataStreams: seq<string>, timeStart: TimeArg, timeEnd: TimeArg): (v: Values)
    ensures {"access_key", "secret_key", "study_id"} <= v.Keys
    ensures v.Keys <= {"access_key", "secret_key", "study_id", "user_ids", "data_streams", "time_start", "time_end"}
    ensures v["access_key"] == Str(accessKey) && v["secret_key"] == Str(secretKey) && v["study_id"] == Str(studyId)
    ensures ("user_ids" in v <==> userIds != []) && ("user_ids" in v ==> v["user_ids"] == RawList(userIds))
    ensures ("data_streams" in v <==> dataStreams != []) && ("data_streams" in v ==> v["data_streams"] == RawList(dataStreams))
    ensures ("time_start" in v <==> Truthy(timeStart)) && ("time_start" in v ==> v["time_start"] == RawTime(timeStart))
    ensures ("time_end" in v <==> Truthy(timeEnd)) && ("time_end" in v ==> v["time_end"] == RawTime(timeEnd))
  {
    var v0 := BaseValues(studyId, accessKey, secretKey);
    var v1 := if userIds != [] then v0["user_ids" := RawList(userIds)] else v0;
    var v2 := if dataStreams != [] then v1["data_streams" := RawList(dataStreams)] else v1;
    var v3 := if Truthy(timeStart) then v2["time_start" := RawTime(timeStart)] else v2;
    if Truthy(timeEnd) then v3["time_end" := RawTime(timeEnd)] else v3
  }

  /** Lines 28-43: the `values` dict filled key by key; nothing here raises. */
  method BuildValues(studyId: string, accessKey: string, secretKey: string, userIds: seq<string>,
                     dataStreams: seq<string>, timeStart: TimeArg, timeEnd: TimeArg) returns (values: Values)
    ensures values == ApiValues(studyId, accessKey, secretKey, userIds, dataStreams, timeStart, timeEnd)
  {
    values := map["access_key" := Str(accessKey), "secret_key" := Str(secretKey), "study_id" := Str(studyId)];
    ghost var v0 := BaseValues(studyId, accessKey, secretKey);
    assert values == v0;
    if userIds != [] {
      values := values["user_ids" := RawList(userIds)];
    }
    ghost var v1 := if userIds != [] then v0["user_ids" := RawList(userIds)] else v0;
    assert values == v1;
    if dataStreams != [] {
      values := values["data_streams" := RawList(dataStreams)];
    }
    ghost var v2 := if dataStreams != [] then v1["data_streams" := RawList(dataStreams)] else v1;
    assert values == v2;
    if Truthy(timeStart) {
      values := values["time_start" := RawTime(timeStart)];
    }
    ghost var v3 := if Truthy(timeStart) then v2["time_start" := RawTime(timeStart)] else v2;
    assert values == v3;
    if Truthy(timeEnd) {
      values := values["time_end" := RawTime(timeEnd)];
    }
  }

  /** `make_request(...)` in the working directory: `archive` is the server's reply,
      `None` when the request fails. Success returns `None`. */
  method MakeRequest(disk: Disk, studyId: string, accessKey: string, secretKey: string, userIds: seq<string>,
                     dataStreams: seq<string>, timeStart: TimeArg, timeEnd: TimeArg, archive: Option<seq<Member>>)
    returns (sent: Option<Values>, r: Result<Option<seq<string>>>)
    requires disk.Valid()
    modifies disk
    ensures disk.Valid() && disk.cwd == old(disk.cwd)
    ensures var o := Sync(old(disk.Here()), ApiValues(studyId, accessKey, secretKey, userIds, dataStreams, timeStart, timeEnd), archive);
            && sent == o.sent
            && disk.dirs == old(disk.dirs)[disk.cwd := o.dir]
            && r == if o.result.Err? then Err(o.result.error) else Ok(None)
    ensures sent.Some? ==> Carries(sent.value, ApiValues(studyId, accessKey, secretKey, userIds, dataStreams, timeStart, timeEnd))
  {
    var values := BuildValues(studyId, accessKey, secretKey, userIds, dataStreams, timeStart, timeEnd);
    SyncSends(disk.Here(), values, archive);
    var result;
    sent, result := disk.SyncHere(values, archive);
    if result.Err? {
      return sent, Err(result.error);
    }
    r := Ok(None);
  }

  /** Both copies send the same parameter names; only the encoding of the lists and of
      `datetime` arguments differs. */
  lemma {:induction false} SameParameterNames(studyId: string, accessKey: string, secretKey: string, userIds: seq<string>,
                           dataStreams: seq<string>, timeStart: TimeArg, timeEnd: TimeArg)
    requires Download.ValidTime(timeStart) && Download.ValidTime(timeEnd)
    requires !Download.TooEarly(timeStart) && !Download.TooEarly(timeEnd)
    ensures Download.DownloadValues(studyId, accessKey, secretKey, userIds, dataStreams, timeStart, timeEnd).Ok?
    ensures Download.DownloadValues(studyId, accessKey, secretKey, userIds, dataStreams, timeStart, timeEnd).value.Keys ==
            ApiValues(studyId, accessKey, secretKey, userIds, dataStreams, timeStart, timeEnd).Keys
  {
    var d := Download.DownloadValues(studyId, accessKey, secretKey, userIds, dataStreams, timeStart, timeEnd).value;
    var a := ApiValues(studyId, accessKey, secretKey, userIds, dataStreams, timeStart, timeEnd);
    SameOptionalKeys(d, a);
  }

  /** Two parameter maps over the same base and optional keys have the same keys when
      they agree on each optional one. */
  lemma {:induction false} SameOptionalKeys(d: Values, a: Values)
    requires {"access_key", "secret_key", "study_id"} <= d.Keys && {"access_key", "secret_key", "study_id"} <= a.Keys
    requires d.Keys <= {"access_key", "secret_key", "study_id", "user_ids", "data_streams", "time_start", "time_end"}
    requires a.Keys <= {"access_key", "secret_key", "study_id", "user_ids", "data_streams", "time_start", "time_end"}
    requires ("user_ids" in d <==> "user_ids" in a) && ("data_streams" in d <==> "data_streams" in a)
    requires ("time_start" in d <==> "time_start" in a) && ("time_end" in d <==> "time_end" in a)
    ensures d.Keys == a.Keys
  {
  }

  /** A non-empty list of users is JSON-encoded by download.py but passed as a list here. */
  lemma {:induction false} UserListsEncodedDifferently(studyId: string, accessKey: string, secretKey: string, userIds: seq<string>,
                                    dataStreams: seq<string>, timeStart: TimeArg, timeEnd: TimeArg)
    requires Download.ValidTime(timeStart) && Download.ValidTime(timeEnd)
    requires !Download.TooEarly(timeStart) && !Download.TooEarly(timeEnd)
    requires userIds != []
    ensures Download.DownloadValues(studyId, accessKey, secretKey, userIds, dataStreams, timeStart, timeEnd).value["user_ids"] !=
            ApiValues(studyId, accessKey, secretKey, userIds, dataStreams, timeStart, timeEnd)["user_ids"]
  {
  }
}
