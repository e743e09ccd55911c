/** download_script.py: fetch a patient's encrypted objects from the study bucket into
    the folder named after the patient, skipping names the folder already held. */
module DownloadScript {
  import opened Results
  import opened Seqs
  import opened Text
  import opened Storage

  /** `name.split('/', 1)[-1].replace("/", "_")`: drops everything up to the first `/`
      and turns the remaining `/` into `_`. */
  function SanitizeFileName(name: string): (r: string)
    ensures '/' !in r
    ensures |r| <= |name|
    ensures '/' !in name ==> r == name
    ensures '/' in name ==> r == ReplaceChar(name[IndexOf(name, '/') + 1..], '/', '_')
  {
    var tail := if '/' in name then name[IndexOf(name, '/') + 1..] else name;
    var r := ReplaceChar(tail, '/', '_');
    assert '/' !in name ==> r == name;
    r
  }

  /** The first segment is dropped, whatever it is, and the rest is kept. */
  lemma {:induction false} SanitizeDropsFirstSegment(first: string, rest: string)
    requires '/' !in first
    ensures SanitizeFileName(first + "/" + rest) == ReplaceChar(rest, '/', '_')
  {
    IndexOfAfter(first, rest, '/');
    assert (first + "/" + rest)[|first| + 1..] == rest;
  }

  /** Replacing characters works piece by piece. */
  lemma {:induction false} ReplaceCharAppend(x: string, y: string)
    ensures ReplaceChar(x + y, '/', '_') == ReplaceChar(x, '/', '_') + ReplaceChar(y, '/', '_')
  {
  }

  /** Later segments are kept, joined by `_`: `a/b/c/d` becomes `b_c_d`. */
  lemma {:induction false} SanitizeKeepsLaterSegments(a: string, b: string, c: string, d: string)
    requires '/' !in a && '/' !in b && '/' !in c && '/' !in d
    ensures SanitizeFileName(a + "/" + b + "/" + c + "/" + d) == b + "_" + c + "_" + d
  {
    assert a + "/" + b + "/" + c + "/" + d == a + "/" + (b + "/" + c + "/" + d);
    SanitizeDropsFirstSegment(a, b + "/" + c + "/" + d);
    ReplaceCharAppend(b + "/" + c + "/", d);
    ReplaceCharAppend(b + "/" + c, "/");
    ReplaceCharAppend(b + "/", c);
    ReplaceCharAppend(b, "/");
    assert ReplaceChar("/", '/', '_') == "_";
    assert ReplaceChar(b, '/', '_') == b && ReplaceChar(c, '/', '_') == c && ReplaceChar(d, '/', '_') == d;
  }

  /** A sanitised name is its own sanitised name. */
  lemma {:induction false} SanitizeIdempotent(name: string)
    ensures SanitizeFileName(SanitizeFileName(name)) == SanitizeFileName(name)
  {
  }

  /** AES in CFB mode with 8-bit segments, which is not modelled: a function of the key,
      the IV and the ciphertext that may reject its arguments. */
  type Cipher = (string, seq<byte>, seq<byte>) -> Result<seq<byte>>

  /** Python's `s[:n]` and `s[n:]` for `n >= 0`. */
  function Head(s: seq<byte>, n: nat): (h: seq<byte>)
    ensures |h| == if |s| < n then |s| else n
  {
    if |s| < n then s else s[..n]
  }

  function Tail(s: seq<byte>, n: nat): (t: seq<byte>)
    ensures Head(s, n) + t == s
  {
    if |s| < n then [] else s[n..]
  }

  /** `_decrypt_file(input_string)`: the first 16 bytes are the IV and only the bytes that
      follow are decrypted, under the study key. */
  function DecryptFile(aes: Cipher, studyKey: string, data: seq<byte>): (r: Result<seq<byte>>)
    ensures |data| >= 16 ==> r == aes(studyKey, data[..16], data[16..])
    ensures |data| < 16 ==> r == aes(studyKey, data, [])
  {
    aes(studyKey, Head(data, 16), Tail(data, 16))
  }

  /** The IV and the ciphertext together are the whole object: nothing is lost or counted twice. */
  lemma {:induction false} DecryptSplit(data: seq<byte>)
    ensures Head(data, 16) + Tail(data, 16) == data
    ensures |data| >= 16 ==> |Head(data, 16)| == 16 && |Tail(data, 16)| == |data| - 16
  {
  }

  /** An object of the bucket. */
  datatype S3Object = S3Object(name: string, data: seq<byte>)

  /** `_STUDY_ID + '/' + patient_id + '/' + data_type` */
  function Prefix(studyId: string, patientId: string, dataType: string): (p: string)
    ensures StartsWith(p, studyId + "/" + patientId + "/")
    ensures p[|studyId| + |patientId| + 2..] == dataType
  {
    var base := studyId + "/" + patientId + "/";
    assert (base + dataType)[..|base|] == base;
    base + dataType
  }

  /** `_bucket.list(prefix=prefix)`: the objects whose name starts with the prefix, in
      the bucket's listing order. */
  function Listing(bucket: seq<S3Object>, prefix: string): (l: seq<S3Object>)
    ensures IsSubseq(l, bucket)
    ensures forall o :: o in l <==> o in bucket && StartsWith(o.name, prefix)
  {
    KeepIsSubseq(bucket, (o: S3Object) => StartsWith(o.name, prefix));
    Keep(bucket, (o: S3Object) => StartsWith(o.name, prefix))
  }

  /** `download_all` (the empty data type) lists every object that any data type lists. */
  lemma {:induction false} DownloadAllCoversEveryType(bucket: seq<S3Object>, studyId: string, patientId: string, dataType: string)
    ensures forall o :: o in Listing(bucket, Prefix(studyId, patientId, dataType)) ==>
                        o in Listing(bucket, Prefix(studyId, patientId, ""))
  {
    var all := Prefix(studyId, patientId, "");
    assert all == studyId + "/" + patientId + "/";
    forall o | o in Listing(bucket, Prefix(studyId, patientId, dataType))
      ensures o in Listing(bucket, all)
    {
      var p := Prefix(studyId, patientId, dataType);
      assert p[..|all|] == all;
      assert o.name[..|p|][..|all|] == o.name[..|all|];
    }
  }

  /** What the loop leaves: the folder's files, and whether it stopped on an exception. */
  datatype Fetched = Fetched(dir: Dir, result: Result<()>)

  /** One pass of the loop of `_download`, given the folder listing `extant` taken before
      the loop: a listed name is skipped; any other object is opened for writing (which
      creates or truncates the file) and then receives its decrypted bytes, unless the
      decryption raises, which leaves that file empty. */
  function FetchOne(dir: Dir, extant: set<string>, o: S3Object, aes: Cipher, studyKey: string): (f: Fetched)
    ensures dir.Keys <= f.dir.Keys
  {
    var name := SanitizeFileName(o.name);
    if name in extant then Fetched(dir, Ok(()))
    else match DecryptFile(aes, studyKey, o.data)
      case Err(e) => Fetched(dir[name := Blob([])], Err(e))
      case Ok(plain) => Fetched(dir[name := Blob(plain)], Ok(()))
  }

  /** The loop of `_download` over `objects`: an exception ends it. */
  function Fetch(dir: Dir, extant: set<string>, objects: seq<S3Object>, aes: Cipher, studyKey: string): (f: Fetched)
    ensures dir.Keys <= f.dir.Keys
  {
    if objects == [] then Fetched(dir, Ok(()))
    else
      var prev := Fetch(dir, extant, objects[..|objects| - 1], aes, studyKey);
      if prev.result.Err? then prev
      else FetchOne(prev.dir, extant, objects[|objects| - 1], aes, studyKey)
  }

  /** A file the folder held before the loop is never rewritten. */
  lemma {:induction false} FetchKeepsExtant(dir: Dir, objects: seq<S3Object>, aes: Cipher, studyKey: string, name: string)
    requires name in dir
    ensures Fetch(dir, dir.Keys, objects, aes, studyKey).dir[name] == dir[name]
  {
    if objects != [] {
      FetchKeepsExtant(dir, objects[..|objects| - 1], aes, studyKey, name);
    }
  }

  /** Every new file is the sanitised name of a listed object. */
  lemma {:induction false} FetchWritesOnlyListed(dir: Dir, extant: set<string>, objects: seq<S3Object>, aes: Cipher,
                                                 studyKey: string, name: string)
    requires name in Fetch(dir, extant, objects, aes, studyKey).dir && name !in dir
    ensures name !in extant
    ensures exists i :: 0 <= i < |objects| && SanitizeFileName(objects[i].name) == name
  {
    var init := objects[..|objects| - 1];
    var prev := Fetch(dir, extant, init, aes, studyKey);
    if name in prev.dir {
      FetchWritesOnlyListed(dir, extant, init, aes, studyKey, name);
      var i :| 0 <= i < |init| && SanitizeFileName(init[i].name) == name;
      assert objects[i] == init[i];
    } else {
      assert SanitizeFileName(objects[|objects| - 1].name) == name;
    }
  }

  /** When the loop completes, a name the snapshot did not hold has the decrypted bytes of
      the LAST listed object with that name: the snapshot is not refreshed, so each such
      object is written again. */
  lemma {:induction false} FetchLastWins(dir: Dir, extant: set<string>, objects: seq<S3Object>, aes: Cipher,
                                         studyKey: string, i: int)
    requires 0 <= i < |objects|
    requires Fetch(dir, extant, objects, aes, studyKey).result.Ok?
    requires SanitizeFileName(objects[i].name) !in extant
    requires forall j :: i < j < |objects| ==> SanitizeFileName(objects[j].name) != SanitizeFileName(objects[i].name)
    ensures DecryptFile(aes, studyKey, objects[i].data).Ok?
    ensures var name := SanitizeFileName(objects[i].name);
            name in Fetch(dir, extant, objects, aes, studyKey).dir &&
            Fetch(dir, extant, objects, aes, studyKey).dir[name] == Blob(DecryptFile(aes, studyKey, objects[i].data).value)
  {
    var init := objects[..|objects| - 1];
    var prev := Fetch(dir, extant, init, aes, studyKey);
    var last := objects[|objects| - 1];
    var f := Fetch(dir, extant, objects, aes, studyKey);
    assert prev.result.Ok? by {
      assert prev.result.Err? ==> f == prev;
    }
    if i < |objects| - 1 {
      assert forall j :: i < j < |init| ==> init[j] == objects[j];
      FetchLastWins(dir, extant, init, aes, studyKey, i);
      assert init[i] == objects[i];
    }
  }

  /** Two objects: the loop body twice, unless the first raises. */
  lemma {:induction false} FetchTwo(dir: Dir, extant: set<string>, a: S3Object, b: S3Object, aes: Cipher, studyKey: string)
    ensures var first := FetchOne(dir, extant, a, aes, studyKey);
            Fetch(dir, extant, [a, b], aes, studyKey) ==
              if first.result.Err? then first else FetchOne(first.dir, extant, b, aes, studyKey)
  {
    var objects := [a, b];
    assert objects[..0] == [] && objects[0] == a && objects[1] == b && objects[..2] == objects;
    FetchSnoc(dir, extant, objects, aes, studyKey, 0);
    FetchSnoc(dir, extant, objects, aes, studyKey, 1);
  }

  /** Two listed objects with the same new name: the later one is what the folder keeps. */
  lemma {:induction false} LaterDuplicateWins(dir: Dir, a: S3Object, b: S3Object, aes: Cipher, studyKey: string)
    requires SanitizeFileName(a.name) == SanitizeFileName(b.name) && SanitizeFileName(a.name) !in dir
    requires DecryptFile(aes, studyKey, a.data).Ok? && DecryptFile(aes, studyKey, b.data).Ok?
    ensures Fetch(dir, dir.Keys, [a, b], aes, studyKey) ==
            Fetched(dir[SanitizeFileName(a.name) := Blob(DecryptFile(aes, studyKey, b.data).value)], Ok(()))
  {
    FetchTwo(dir, dir.Keys, a, b, aes, studyKey);
    var name := SanitizeFileName(a.name);
    var pa, pb := DecryptFile(aes, studyKey, a.data).value, DecryptFile(aes, studyKey, b.data).value;
    var da := dir[name := Blob(pa)];
    FetchOneNew(dir, dir.Keys, a, aes, studyKey);
    FetchOneNew(da, dir.Keys, b, aes, studyKey);
    assert da[name := Blob(pb)] == dir[name := Blob(pb)];
  }

  /** A new name whose object decrypts is written with the plaintext. */
  lemma {:induction false} FetchOneNew(dir: Dir, extant: set<string>, o: S3Object, aes: Cipher, studyKey: string)
    requires SanitizeFileName(o.name) !in extant && DecryptFile(aes, studyKey, o.data).Ok?
    ensures FetchOne(dir, extant, o, aes, studyKey) ==
            Fetched(dir[SanitizeFileName(o.name) := Blob(DecryptFile(aes, studyKey, o.data).value)], Ok(()))
  {
  }

  /** One more object: the step of the loop. */
  lemma {:induction false} FetchSnoc(dir: Dir, extant: set<string>, objects: seq<S3Object>, aes: Cipher, studyKey: string, i: int)
    requires 0 <= i < |objects|
    ensures var prev := Fetch(dir, extant, objects[..i], aes, studyKey);
            Fetch(dir, extant, objects[..i + 1], aes, studyKey) ==
              if prev.result.Err? then prev else FetchOne(prev.dir, extant, objects[i], aes, studyKey)
  {
    assert objects[..i + 1][..i] == objects[..i];
    assert objects[..i + 1][i] == objects[i];
  }

  /** After the loop has stopped on an exception, later objects change nothing. */
  lemma {:induction false} FetchStops(dir: Dir, extant: set<string>, objects: seq<S3Object>, aes: Cipher,
                                      studyKey: string, k: nat)
    requires k <= |objects| && Fetch(dir, extant, objects[..k], aes, studyKey).result.Err?
    ensures Fetch(dir, extant, objects, aes, studyKey) == Fetch(dir, extant, objects[..k], aes, studyKey)
    decreases |objects| - k
  {
    if k < |objects| {
      var init := objects[..|objects| - 1];
      assert init[..k] == objects[..k];
      FetchStops(dir, extant, init, aes, studyKey, k);
    } else {
      assert objects[..k] == objects;
    }
  }

  /** `_download(data_type, patient_id)`: the folder `patient_id + '/'` is made when
      missing, its listing is taken once, then each listed object is skipped or written. */
  method DownloadObjects(disk: Disk, bucket: seq<S3Object>, studyId: string, studyKey: string, aes: Cipher,
                         dataType: string, patientId: string) returns (r: Result<()>)
    requires disk.Valid()
    modifies disk
    ensures disk.Valid() && disk.cwd == old(disk.cwd)
    ensures var folder := Resolve(old(disk.cwd), patientId + "/");
            var start := if folder in old(disk.dirs) then old(disk.dirs)[folder] else map[];
            var f := Fetch(start, start.Keys, Listing(bucket, Prefix(studyId, patientId, dataType)), aes, studyKey);
            disk.dirs == old(disk.dirs)[folder := f.dir] && r == f.result
  {
    var folder := Resolve(disk.cwd, patientId + "/");
    if folder !in disk.dirs {
      disk.dirs := disk.dirs[folder := map[]];
    }
    var extant := disk.dirs[folder].Keys;
    var objects := Listing(bucket, Prefix(studyId, patientId, dataType));
    r := FetchAll(disk, folder, extant, objects, aes, studyKey);
  }

  /** The loop of `_download` over the listed objects. */
  method FetchAll(disk: Disk, folder: string, extant: set<string>, objects: seq<S3Object>, aes: Cipher, studyKey: string)
    returns (r: Result<()>)
    requires disk.Valid() && folder in disk.dirs
    modifies disk
    ensures disk.Valid() && disk.cwd == old(disk.cwd)
    ensures var f := Fetch(old(disk.dirs)[folder], extant, objects, aes, studyKey);
            disk.dirs == old(disk.dirs)[folder := f.dir] && r == f.result
  {
    ghost var start := disk.dirs[folder];
    ghost var before := disk.dirs;
    var i := 0;
    assert objects[..0] == [];
    assert before[folder := start] == before;
    while i < |objects|
      invariant 0 <= i <= |objects|
      invariant disk.Valid() && disk.cwd == old(disk.cwd) && folder in before
      invariant Fetch(start, extant, objects[..i], aes, studyKey).result.Ok?
      invariant disk.dirs == before[folder := Fetch(start, extant, objects[..i], aes, studyKey).dir]
    {
      FetchSnoc(start, extant, objects, aes, studyKey, i);
      ghost var prevDir := Fetch(start, extant, objects[..i], aes, studyKey).dir;
      ghost var next := FetchOne(prevDir, extant, objects[i], aes, studyKey);
      r := StoreOne(disk, folder, extant, objects[i], aes, studyKey);
      assert before[folder := prevDir][folder := next.dir] == before[folder := next.dir];
      if r.Err? {
        FetchStops(start, extant, objects, aes, studyKey, i + 1);
        return;
      }
      i := i + 1;
    }
    assert objects[..i] == objects;
    return Ok(());
  }

  /** The body of the loop of `_download` on the patient's folder. */
  method StoreOne(disk: Disk, folder: string, extant: set<string>, o: S3Object, aes: Cipher, studyKey: string)
    returns (r: Result<()>)
    requires disk.Valid() && folder in disk.dirs
    modifies disk
    ensures disk.Valid() && disk.cwd == old(disk.cwd)
    ensures var f := FetchOne(old(disk.dirs)[folder], extant, o, aes, studyKey);
            disk.dirs == old(disk.dirs)[folder := f.dir] && r == f.result
  {
    var name := SanitizeFileName(o.name);
    if name in extant {
      assert old(disk.dirs)[folder := old(disk.dirs)[folder]] == old(disk.dirs);
      return Ok(());
    }
    var contents := disk.dirs[folder];
    disk.dirs := disk.dirs[folder := contents[name := Blob([])]];
    var plain := DecryptFile(aes, studyKey, o.data);
    if plain.Err? {
      return Err(plain.error);
    }
    disk.dirs := disk.dirs[folder := contents[name := Blob(plain.value)]];
    return Ok(());
  }

  /** The `download_*` wrappers of the script. */
  datatype Preset = All | Bluetooth | Wifi | Debug | Accel | Gps | Audio | Texts | Calls | PowerState
                  | DailySurveyResults | WeeklySurveyResults | WeeklySurveyTimings | DailySurveyTimings

  /** The data type each wrapper passes to `_download`, as written. */
  function PresetAsWritten(p: Preset): (t: string)
    ensures t == "" <==> p == All
    ensures t != "" ==> t[0] != '/'
  {
    match p
    case All => ""
    case Bluetooth => "bluetooth"
    case Wifi => "wifi"
    case Debug => "logFile"
    case Accel => "accel"
    case Gps => "gps"
    case Audio => "voiceRecording"
    case Texts => "texts"
    case Calls => "call"
    case PowerState => "powerState/"
    case DailySurveyResults => "surveyAnswers/Daily"
    case WeeklySurveyResults => "surveyAnswers/Weekly"
    case WeeklySurveyTimings => "surveyTimings/Weekly"
    case DailySurveyTimings => "surveytimings/Weekly"
  }

  /** Every wrapper passes a different literal, the daily survey-timings one included. */
  lemma {:induction false} PresetsDistinct(p: Preset, q: Preset)
    requires PresetAsWritten(p) == PresetAsWritten(q)
    ensures p == q
  {
  }

  /** As written, `download_daily_survey_timings_data` lists no survey-timings object at
      all: its literal has a lower-case `t` (and says `Weekly`). */
  lemma {:induction false} DailyTimingsAsWrittenListsNoTimings(bucket: seq<S3Object>, studyId: string, patientId: string)
    ensures forall o :: o in Listing(bucket, Prefix(studyId, patientId, "surveyTimings/")) ==>
                        o !in Listing(bucket, Prefix(studyId, patientId, PresetAsWritten(DailySurveyTimings)))
  {
    var base := studyId + "/" + patientId + "/";
    var t := Prefix(studyId, patientId, "surveyTimings/");
    var w := Prefix(studyId, patientId, PresetAsWritten(DailySurveyTimings));
    assert t[|base| + 6] == 'T' && w[|base| + 6] == 't';
    forall o | o in Listing(bucket, t)
      ensures o !in Listing(bucket, w)
    {
      assert o.name[|base| + 6] == t[|base| + 6];
    }
  }

  /** The data type of each wrapper, with the daily survey-timings literal corrected to
      the daily timings; every other preset is as written. */
  function PresetType(p: Preset): (t: string)
    ensures p != DailySurveyTimings ==> t == PresetAsWritten(p)
  {
    if p == DailySurveyTimings then "surveyTimings/Daily" else PresetAsWritten(p)
  }

  /** With the correction, the daily and weekly presets of each survey kind differ only in
      the period, and the daily timings preset lists exactly the daily timings objects. */
  lemma {:induction false} SurveyPresetsPaired(bucket: seq<S3Object>, studyId: string, patientId: string)
    ensures PresetType(DailySurveyResults) == "surveyAnswers/" + "Daily"
    ensures PresetType(WeeklySurveyResults) == "surveyAnswers/" + "Weekly"
    ensures PresetType(DailySurveyTimings) == "surveyTimings/" + "Daily"
    ensures PresetType(WeeklySurveyTimings) == "surveyTimings/" + "Weekly"
    ensures forall o :: o in Listing(bucket, Prefix(studyId, patientId, PresetType(DailySurveyTimings))) <==>
                        o in bucket && StartsWith(o.name, studyId + "/" + patientId + "/surveyTimings/Daily")
  {
    assert Prefix(studyId, patientId, PresetType(DailySurveyTimings)) ==
           studyId + "/" + patientId + "/surveyTimings/Daily";
  }

  /** `download_<preset>(patient_id)`, with the data type each wrapper passes as written. */
  method DownloadPreset(disk: Disk, bucket: seq<S3Object>, studyId: string, studyKey: string, aes: Cipher,
                        p: Preset, patientId: string) returns (r: Result<()>)
    requires disk.Valid()
    modifies disk
    ensures disk.Valid() && disk.cwd == old(disk.cwd)
    ensures var folder := Resolve(old(disk.cwd), patientId + "/");
            var start := if folder in old(disk.dirs) then old(disk.dirs)[folder] else map[];
            var f := Fetch(start, start.Keys, Listing(bucket, Prefix(studyId, patientId, PresetAsWritten(p))), aes, studyKey);
            disk.dirs == old(disk.dirs)[folder := f.dir] && r == f.result
  {
    r := DownloadObjects(disk, bucket, studyId, studyKey, aes, PresetAsWritten(p), patientId);
  }

  /** The wrappers with the daily survey-timings literal corrected: every other preset
      downloads exactly as `DownloadPreset` does. */
  method DownloadCorrectedPreset(disk: Disk, bucket: seq<S3Object>, studyId: string, studyKey: string, aes: Cipher,
                                 p: Preset, patientId: string) returns (r: Result<()>)
    requires disk.Valid()
    modifies disk
    ensures disk.Valid() && disk.cwd == old(disk.cwd)
    ensures var folder := Resolve(old(disk.cwd), patientId + "/");
            var start := if folder in old(disk.dirs) then old(disk.dirs)[folder] else map[];
            var f := Fetch(start, start.Keys, Listing(bucket, Prefix(studyId, patientId, PresetType(p))), aes, studyKey);
            disk.dirs == old(disk.dirs)[folder := f.dir] && r == f.result
  {
    r := DownloadObjects(disk, bucket, studyId, studyKey, aes, PresetType(p), patientId);
  }
}
