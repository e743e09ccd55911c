/** The local side of the Beiwe data-access protocol that both `make_request` copies
    (download.py and data_access_api.py) follow: the request parameters, the
    `master_registry` file that remembers what was downloaded, extraction of the
    returned archive and the merge of the received `registry`. */
module Storage {
  import opened Results
  import opened Seqs
  import opened Calendar

  newtype byte = x: int | 0 <= x < 256

  /** What a file holds: raw bytes, or a JSON object of strings as `json.dump` writes it
      (JSON text itself is not modelled). */
  datatype Content = Blob(bytes: seq<byte>) | JsonObject(entries: map<string, string>)

  /** The files of one directory by name; names of archive members may hold `/`. */
  type Dir = map<string, Content>

  /** A member of the returned zip archive. */
  datatype Member = Member(name: string, content: Content)

  /** A `datetime` argument, a string argument, or none (`None`). */
  datatype TimeArg = NoTime | AtTime(dt: DateTime) | TimeText(s: string)

  /** Python truthiness: a `datetime` is always true, a string when it is not empty. */
  predicate Truthy(t: TimeArg) {
    t.AtTime? || (t.TimeText? && t.s != "")
  }

  /** A request parameter before URL encoding. */
  datatype Param =
    | Str(s: string)                        // a string passed as it is
    | JsonList(items: seq<string>)          // json.dumps of a list of strings
    | RawList(items: seq<string>)           // a list passed without encoding
    | JsonMap(entries: map<string, string>) // json.dumps of a registry
    | RawTime(t: TimeArg)                   // a time argument passed without conversion

  type Values = map<string, Param>

  /** The three keys every request carries. */
  function BaseValues(studyId: string, accessKey: string, secretKey: string): (v: Values)
    ensures v.Keys == {"access_key", "secret_key", "study_id"}
    ensures v["access_key"] == Str(accessKey) && v["secret_key"] == Str(secretKey) && v["study_id"] == Str(studyId)
  {
    map["access_key" := Str(accessKey), "secret_key" := Str(secretKey), "study_id" := Str(studyId)]
  }

  // ----- the registry merge -----

  /** `old.update(new)` */
  function Merge(prior: map<string, string>, received: map<string, string>): (m: map<string, string>)
    ensures m.Keys == prior.Keys + received.Keys
    ensures forall k :: k in received ==> m[k] == received[k]
    ensures forall k :: k in prior && k !in received ==> m[k] == prior[k]
  {
    prior + received
  }

  /** Merging the same received registry again changes nothing. */
  lemma {:induction false} MergeIdempotent(prior: map<string, string>, received: map<string, string>)
    ensures Merge(Merge(prior, received), received) == Merge(prior, received)
  {
  }

  /** Two merges in a row are one merge with the later registry winning. */
  lemma {:induction false} MergeTwice(prior: map<string, string>, r1: map<string, string>, r2: map<string, string>)
    ensures Merge(Merge(prior, r1), r2) == Merge(prior, Merge(r1, r2))
  {
  }

  /** On a conflict the order matters: the merge is not commutative. */
  lemma {:induction false} MergeNotCommutative()
    ensures Merge(map["a.csv" := "1"], map["a.csv" := "2"]) != Merge(map["a.csv" := "2"], map["a.csv" := "1"])
  {
    assert Merge(map["a.csv" := "1"], map["a.csv" := "2"])["a.csv"] == "2";
  }

  // ----- the archive -----

  /** The last member with a given name is the one whose content survives extraction. */
  predicate LastOfName(ms: seq<Member>, i: int)
    requires 0 <= i < |ms|
  {
    forall j :: i < j < |ms| ==> ms[j].name != ms[i].name
  }

  /** The member names in archive order, as `z.filelist` lists them. */
  function Names(ms: seq<Member>): (names: seq<string>)
    ensures |names| == |ms| && forall i :: 0 <= i < |ms| ==> names[i] == ms[i].name
  {
    seq(|ms|, i requires 0 <= i < |ms| => ms[i].name)
  }

  /** The files the archive writes, by name; a later member overwrites an earlier one. */
  function Entries(ms: seq<Member>): (d: Dir)
    ensures ms != [] ==> ms[|ms| - 1].name in d && d[ms[|ms| - 1].name] == ms[|ms| - 1].content
  {
    if ms == [] then map[]
    else Entries(ms[..|ms| - 1])[ms[|ms| - 1].name := ms[|ms| - 1].content]
  }

  /** The archive writes a file for each member name and no other. */
  lemma {:induction false} EntriesKeys(ms: seq<Member>)
    ensures Entries(ms).Keys == set n | n in Names(ms)
  {
    if ms != [] {
      var init := ms[..|ms| - 1];
      EntriesKeys(init);
      assert Names(ms) == Names(init) + [ms[|ms| - 1].name];
    }
  }

  /** The file of a name holds the content of the last member of that name. */
  lemma {:induction false} EntriesLastWins(ms: seq<Member>, i: int)
    requires 0 <= i < |ms| && LastOfName(ms, i)
    ensures ms[i].name in Entries(ms) && Entries(ms)[ms[i].name] == ms[i].content
  {
    var init := ms[..|ms| - 1];
    if i < |init| {
      assert ms[|ms| - 1].name != ms[i].name;
      assert init[i] == ms[i];
      assert LastOfName(init, i) by {
        forall j | i < j < |init| ensures init[j].name != init[i].name {
          assert init[j] == ms[j];
        }
      }
      EntriesLastWins(init, i);
    }
  }

  /** `z.extractall()` into the directory. */
  function ExtractAll(dir: Dir, ms: seq<Member>): (r: Dir)
    ensures forall i :: 0 <= i < |ms| ==> ms[i].name in r
    ensures forall n :: n in dir && n !in Names(ms) ==> n in r && r[n] == dir[n]
  {
    EntriesKeys(ms);
    dir + Entries(ms)
  }

  /** Extracting the same archive twice leaves what extracting it once left. */
  lemma {:induction false} ExtractAllIdempotent(dir: Dir, ms: seq<Member>)
    ensures ExtractAll(ExtractAll(dir, ms), ms) == ExtractAll(dir, ms)
  {
  }

  predicate NotRegistry(name: string) { name != "registry" }

  /** `[name.filename for name in z.filelist if name.filename != "registry"]`: the member
      names in archive order, repeated names included, with every `registry` left out. */
  function NewFiles(ms: seq<Member>): (names: seq<string>)
    ensures |names| <= |ms|
    ensures forall n :: n in names <==> n != "registry" && exists i :: 0 <= i < |ms| && ms[i].name == n
    ensures IsSubseq(names, Names(ms))
    ensures multiset(names) == multiset(Names(ms))["registry" := 0]
    ensures |names| == |ms| - multiset(Names(ms))["registry"]
  {
    KeepIsSubseq(Names(ms), NotRegistry);
    KeepDropsRegistry(Names(ms));
    Keep(Names(ms), NotRegistry)
  }

  /** Leaving out the `registry` names keeps every other name as often as it occurs. */
  lemma {:induction false} KeepDropsRegistry(names: seq<string>)
    ensures multiset(Keep(names, NotRegistry)) == multiset(names)["registry" := 0]
    ensures |Keep(names, NotRegistry)| == |names| - multiset(names)["registry"]
  {
    if names != [] {
      var rest := names[1..];
      KeepDropsRegistry(rest);
      assert names == [names[0]] + rest;
      assert multiset(names) == multiset{names[0]} + multiset(rest);
      var k := Keep(names, NotRegistry);
      if names[0] == "registry" {
        assert k == Keep(rest, NotRegistry);
        assert multiset(names)["registry" := 0] == multiset(rest)["registry" := 0];
      } else {
        assert k == [names[0]] + Keep(rest, NotRegistry);
        assert multiset(k) == multiset{names[0]} + multiset(Keep(rest, NotRegistry));
        assert multiset(names)["registry" := 0] == multiset{names[0]} + multiset(rest)["registry" := 0];
      }
    }
  }

  // ----- one synchronisation in the working directory -----

  /** What a synchronisation sent, the directory it left and its result. */
  datatype SyncOutcome = SyncOutcome(sent: Option<Values>, dir: Dir, result: Result<seq<string>>)

  /** `json.load` of `master_registry`: `None` when the file does not exist. */
  function LoadMaster(dir: Dir): (r: Result<Option<map<string, string>>>)
    ensures r == Ok(None) <==> "master_registry" !in dir
    ensures r.Err? ==> r.error == JsonError && "master_registry" in dir
    ensures r.Ok? && r.value.Some? ==> "master_registry" in dir && dir["master_registry"] == JsonObject(r.value.value)
  {
    if "master_registry" !in dir then Ok(None)
    else match dir["master_registry"]
      case Blob(_) => Err(JsonError)
      case JsonObject(m) => Ok(Some(m))
  }

  /** The registry the request reports, and the map the received one is merged into. */
  function Prior(loaded: Option<map<string, string>>): map<string, string> {
    if loaded.Some? then loaded.value else map[]
  }

  /** The parameters as sent: a `registry` parameter exactly when `master_registry` exists. */
  function WithRegistry(values: Values, loaded: Option<map<string, string>>): (v: Values)
    ensures "registry" in v <==> "registry" in values || loaded.Some?
    ensures loaded.Some? ==> v == values["registry" := JsonMap(loaded.value)]
    ensures loaded.None? ==> v == values
  {
    if loaded.Some? then values["registry" := JsonMap(loaded.value)] else values
  }

  /** The steps of `make_request` inside the working directory, from loading
      `master_registry` to removing `registry`. `archive` is the server's reply, `None`
      when the request fails. */
  function Sync(dir: Dir, values: Values, archive: Option<seq<Member>>): (o: SyncOutcome)
    ensures o.sent.None? ==> o.dir == dir && o.result.Err?
    ensures archive.None? ==> o.dir == dir && o.result.Err?
    ensures o.result.Ok? ==> o.sent.Some? && "registry" !in o.dir && "master_registry" in o.dir && o.dir["master_registry"].JsonObject?
    ensures o.result.Err? ==> o.result.error in {JsonError, UrlError, IOError}
  {
    match LoadMaster(dir)
    case Err(e) => SyncOutcome(None, dir, Err(e))
    case Ok(loaded) =>
      var sent := WithRegistry(values, loaded);
      if archive.None? then SyncOutcome(Some(sent), dir, Err(UrlError))
      else
        var extracted := ExtractAll(dir, archive.value);
        if "registry" !in extracted then SyncOutcome(Some(sent), extracted, Err(IOError))
        else match extracted["registry"]
          case Blob(_) => SyncOutcome(Some(sent), extracted, Err(JsonError))
          case JsonObject(received) =>
            var merged := Merge(Prior(loaded), received);
            SyncOutcome(Some(sent), extracted["master_registry" := JsonObject(merged)] - {"registry"},
                        Ok(NewFiles(archive.value)))
  }

  /** Every parameter but `registry` is sent as it was given. */
  predicate Carries(sent: Values, values: Values) {
    forall k :: k in values && k != "registry" ==> k in sent && sent[k] == values[k]
  }

  /** A synchronisation that sends anything sends the given parameters, and the
      `registry` parameter is the loaded `master_registry` when there is one. */
  lemma {:induction false} SyncSends(dir: Dir, values: Values, archive: Option<seq<Member>>)
    ensures Sync(dir, values, archive).sent.Some? <==> LoadMaster(dir).Ok?
    ensures Sync(dir, values, archive).sent.Some? ==> Carries(Sync(dir, values, archive).sent.value, values)
    ensures Sync(dir, values, archive).sent.Some? && LoadMaster(dir).value.Some? ==>
              Sync(dir, values, archive).sent.value["registry"] == JsonMap(LoadMaster(dir).value.value)
  {
  }

  /** After a successful synchronisation `master_registry` holds exactly the merged
      registry, `registry` is gone, and every other member of the archive is in the
      directory with the content of its last copy. */
  lemma {:induction false} SyncSuccess(dir: Dir, values: Values, ms: seq<Member>)
    requires Sync(dir, values, Some(ms)).result.Ok?
    ensures LoadMaster(dir).Ok? && "registry" in ExtractAll(dir, ms)
    ensures var o := Sync(dir, values, Some(ms));
            var received := ExtractAll(dir, ms)["registry"];
            && received.JsonObject?
            && o.dir["master_registry"] == JsonObject(Merge(Prior(LoadMaster(dir).value), received.entries))
            && "registry" !in o.dir
            && o.result.value == NewFiles(ms)
            && forall i :: 0 <= i < |ms| && LastOfName(ms, i) && ms[i].name != "registry" && ms[i].name != "master_registry" ==>
                 ms[i].name in o.dir && o.dir[ms[i].name] == ms[i].content
  {
    var loaded := LoadMaster(dir).value;
    var extracted := ExtractAll(dir, ms);
    var received := extracted["registry"].entries;
    var d := extracted["master_registry" := JsonObject(Merge(Prior(loaded), received))] - {"registry"};
    assert Sync(dir, values, Some(ms)).dir == d;
    forall i | 0 <= i < |ms| && LastOfName(ms, i) && ms[i].name != "registry" && ms[i].name != "master_registry"
      ensures ms[i].name in d && d[ms[i].name] == ms[i].content
    {
      EntriesLastWins(ms, i);
      assert extracted[ms[i].name] == ms[i].content;
    }
  }

  /** If the archive has no `registry` member (and none was left behind), the data
      members are extracted but `master_registry` is as it was, unless the archive
      itself carried one. */
  lemma {:induction false} SyncWithoutRegistry(dir: Dir, values: Values, ms: seq<Member>)
    requires LoadMaster(dir).Ok? && "registry" !in dir
    requires forall i :: 0 <= i < |ms| ==> ms[i].name != "registry"
    ensures var o := Sync(dir, values, Some(ms));
            o.result == Err(IOError) && o.dir == ExtractAll(dir, ms)
    ensures (forall i :: 0 <= i < |ms| ==> ms[i].name != "master_registry") ==>
              var o := Sync(dir, values, Some(ms));
              ("master_registry" in o.dir <==> "master_registry" in dir) &&
              ("master_registry" in dir ==> o.dir["master_registry"] == dir["master_registry"])
  {
    EntriesKeys(ms);
    assert "registry" !in Names(ms);
    if forall i :: 0 <= i < |ms| ==> ms[i].name != "master_registry" {
      assert "master_registry" !in Names(ms);
    }
  }

  /** A failure before anything is extracted leaves the directory untouched; an unreadable
      `master_registry` even stops the request from being sent. */
  lemma {:induction false} SyncEarlyFailure(dir: Dir, values: Values, archive: Option<seq<Member>>)
    requires LoadMaster(dir).Err? || archive.None?
    ensures Sync(dir, values, archive).dir == dir && Sync(dir, values, archive).result.Err?
    ensures LoadMaster(dir).Err? <==> Sync(dir, values, archive).sent.None?
  {
  }

  /** The next request after a successful one reports the merged registry. */
  lemma {:induction false} NextRequestSendsMerged(dir: Dir, values: Values, ms: seq<Member>, next: Values)
    requires Sync(dir, values, Some(ms)).result.Ok?
    ensures var o := Sync(dir, values, Some(ms));
            LoadMaster(o.dir) == Ok(Some(o.dir["master_registry"].entries)) &&
            WithRegistry(next, LoadMaster(o.dir).value) == next["registry" := JsonMap(o.dir["master_registry"].entries)]
  {
    SyncSuccess(dir, values, ms);
  }

  /** The successful path of `Sync`, step by step. */
  lemma {:induction false} SyncOkPath(dir: Dir, values: Values, ms: seq<Member>, loaded: Option<map<string, string>>,
                   received: map<string, string>)
    requires LoadMaster(dir) == Ok(loaded)
    requires "registry" in ExtractAll(dir, ms) && ExtractAll(dir, ms)["registry"] == JsonObject(received)
    ensures Sync(dir, values, Some(ms)) ==
            SyncOutcome(Some(WithRegistry(values, loaded)),
                        ExtractAll(dir, ms)["master_registry" := JsonObject(Merge(Prior(loaded), received))] - {"registry"},
                        Ok(NewFiles(ms)))
  {
  }

  /** Replaying the same reply changes nothing: the directory a second synchronisation
      leaves is the one the first left. */
  lemma {:induction false} SyncReplay(dir: Dir, values: Values, ms: seq<Member>)
    requires Sync(dir, values, Some(ms)).result.Ok?
    requires forall i :: 0 <= i < |ms| ==> ms[i].name != "master_registry"
    ensures Sync(Sync(dir, values, Some(ms)).dir, values, Some(ms)).dir == Sync(dir, values, Some(ms)).dir
  {
    SyncSuccess(dir, values, ms);
    var loaded := LoadMaster(dir).value;
    var e := Entries(ms);
    var received := ExtractAll(dir, ms)["registry"].entries;
    var merged := Merge(Prior(loaded), received);
    var d1 := (dir + e)["master_registry" := JsonObject(merged)] - {"registry"};
    SyncOkPath(dir, values, ms, loaded, received);
    EntriesKeys(ms);
    assert "master_registry" !in Names(ms);
    assert "master_registry" !in e;
    assert LoadMaster(d1) == Ok(Some(merged));
    if "registry" !in e {
      ReplayWithoutMember(dir, e, d1, merged);
      assert "registry" !in ExtractAll(d1, ms);
    } else {
      MergeIdempotent(Prior(loaded), received);
      assert ExtractAll(d1, ms)["registry"] == JsonObject(received);
      SyncOkPath(d1, values, ms, Some(merged), received);
      ReplayWithMember(dir, e, d1, merged);
    }
  }

  lemma {:induction false} ReplayWithoutMember(dir: Dir, e: Dir, d1: Dir, merged: map<string, string>)
    requires "master_registry" !in e && "registry" !in e
    requires d1 == (dir + e)["master_registry" := JsonObject(merged)] - {"registry"}
    ensures d1 + e == d1
  {
    assert (d1 + e).Keys == d1.Keys;
    forall k | k in d1 ensures (d1 + e)[k] == d1[k] {
      if k in e { assert d1[k] == (dir + e)[k]; }
    }
  }

  lemma {:induction false} ReplayWithMember(dir: Dir, e: Dir, d1: Dir, merged: map<string, string>)
    requires "master_registry" !in e
    requires d1 == (dir + e)["master_registry" := JsonObject(merged)] - {"registry"}
    ensures (d1 + e)["master_registry" := JsonObject(merged)] - {"registry"} == d1
  {
    var d2 := (d1 + e)["master_registry" := JsonObject(merged)] - {"registry"};
    assert d2.Keys == d1.Keys;
    forall k | k in d1 ensures d2[k] == d1[k] {
    }
  }

  /** File names that are neither of the two registry files. */
  predicate DataName(n: string) {
    n != "registry" && n != "master_registry"
  }

  /** A reply holding one data file and a registry naming it. */
  function Reply(name: string, data: Content, version: string): seq<Member> {
    [Member(name, data), Member("registry", JsonObject(map[name := version]))]
  }

  lemma {:induction false} ReplyFiles(name: string, data: Content, version: string)
    requires DataName(name)
    ensures Entries(Reply(name, data, version)) == map[name := data, "registry" := JsonObject(map[name := version])]
    ensures NewFiles(Reply(name, data, version)) == [name]
  {
    var m := Reply(name, data, version);
    assert m[..1] == [Member(name, data)];
    assert m[..1][..0] == [];
    assert Entries(m[..1]) == map[name := data];
    assert Names(m) == [name, "registry"];
    assert [name, "registry"][1..] == ["registry"];
    assert Keep(["registry"], NotRegistry) == [];
  }

  lemma {:induction false} FirstDownload(values: Values, a: string, data: Content, va: string)
    requires DataName(a)
    ensures Sync(map[], values, Some(Reply(a, data, va))) ==
            SyncOutcome(Some(values), map[a := data, "master_registry" := JsonObject(map[a := va])], Ok([a]))
  {
    var r1 := map[a := va];
    ReplyFiles(a, data, va);
    var empty: Dir := map[];
    var e1 := map[a := data, "registry" := JsonObject(r1)];
    assert ExtractAll(empty, Reply(a, data, va)) == e1;
    SyncOkPath(empty, values, Reply(a, data, va), None, r1);
    assert Merge(map[], r1) == r1;
    assert e1["master_registry" := JsonObject(r1)] - {"registry"} == map[a := data, "master_registry" := JsonObject(r1)];
  }

  /** The folder after the second download of `TwoDownloads`. */
  lemma {:induction false} SecondDir(a: string, b: string, data: Content, j1: Content, j2: Content, jm: Content)
    requires DataName(a) && DataName(b) && a != b
    ensures (map[a := data, "master_registry" := j1] + map[b := data, "registry" := j2])["master_registry" := jm] - {"registry"} ==
            map[a := data, b := data, "master_registry" := jm]
  {
    var x := (map[a := data, "master_registry" := j1] + map[b := data, "registry" := j2])["master_registry" := jm] - {"registry"};
    var y := map[a := data, b := data, "master_registry" := jm];
    assert x.Keys == y.Keys;
    assert forall k :: k in x ==> x[k] == y[k];
  }

  lemma {:induction false} SecondDownload(values: Values, a: string, b: string, data: Content, va: string, vb: string)
    requires DataName(a) && DataName(b) && a != b
    ensures Sync(map[a := data, "master_registry" := JsonObject(map[a := va])], values, Some(Reply(b, data, vb))) ==
            SyncOutcome(Some(values["registry" := JsonMap(map[a := va])]),
                        map[a := data, b := data, "master_registry" := JsonObject(map[a := va, b := vb])],
                        Ok([b]))
  {
    var r1, r2 := map[a := va], map[b := vb];
    ReplyFiles(b, data, vb);
    var d1 := map[a := data, "master_registry" := JsonObject(r1)];
    assert LoadMaster(d1) == Ok(Some(r1));
    var x := d1 + map[b := data, "registry" := JsonObject(r2)];
    assert ExtractAll(d1, Reply(b, data, vb)) == x;
    assert x["registry"] == JsonObject(r2);
    SyncOkPath(d1, values, Reply(b, data, vb), Some(r1), r2);
    assert Merge(r1, r2) == map[a := va, b := vb];
    SecondDir(a, b, data, JsonObject(r1), JsonObject(r2), JsonObject(map[a := va, b := vb]));
  }

  /** Two downloads into an empty folder, each reporting one new file: the second request
      sends the first registry, and `master_registry` ends up naming both files. */
  lemma {:induction false} TwoDownloads(values: Values, a: string, b: string, data: Content, va: string, vb: string)
    requires DataName(a) && DataName(b) && a != b
    ensures var first := Sync(map[], values, Some(Reply(a, data, va)));
            var second := Sync(first.dir, values, Some(Reply(b, data, vb)));
            && first.result == Ok([a])
            && second.sent == Some(values["registry" := JsonMap(map[a := va])])
            && second.result == Ok([b])
            && second.dir == map[a := data, b := data, "master_registry" := JsonObject(map[a := va, b := vb])]
  {
    FirstDownload(values, a, data, va);
    SecondDownload(values, a, b, data, va, vb);
  }

  /** The file system as a set of directories and the process's working directory. */
  class Disk {
    var cwd: string
    var dirs: map<string, Dir>

    ghost predicate Valid()
      reads this
    {
      cwd in dirs
    }

    constructor (cwd: string, dirs: map<string, Dir>)
      requires cwd in dirs
      ensures Valid() && this.cwd == cwd && this.dirs == dirs
    {
      this.cwd := cwd;
      this.dirs := dirs;
    }

    /** The working directory's files. */
    function Here(): Dir
      reads this
      requires Valid()
    {
      dirs[cwd]
    }

    /** `mkdir_p(path)`: creates the directory unless it exists; `os.makedirs('')` raises. */
    method MkdirP(path: string) returns (r: Result<bool>)
      requires Valid()
      modifies this
      ensures Valid() && cwd == old(cwd)
      ensures r.Err? <==> path == ""
      ensures r.Err? ==> r.error == OSError
      ensures r.Ok? ==> dirs == if Resolve(cwd, path) in old(dirs) then old(dirs) else old(dirs)[Resolve(cwd, path) := map[]]
      ensures r.Err? ==> dirs == old(dirs)
    {
      if path == "" {
        return Err(OSError);
      }
      var target := Resolve(cwd, path);
      if target !in dirs {
        dirs := dirs[target := map[]];
      }
      return Ok(true);
    }

    /** Writes one file of the working directory. */
    method Write(name: string, content: Content)
      requires Valid()
      modifies this
      ensures Valid() && cwd == old(cwd) && dirs == old(dirs)[cwd := old(Here())[name := content]]
    {
      dirs := dirs[cwd := dirs[cwd][name := content]];
    }

    /** `os.remove(name)` in the working directory, of a file that exists. */
    method Remove(name: string)
      requires Valid() && name in Here()
      modifies this
      ensures Valid() && cwd == old(cwd) && dirs == old(dirs)[cwd := old(Here()) - {name}]
    {
      dirs := dirs[cwd := dirs[cwd] - {name}];
    }

    /** `z.extractall()`: writes the members one after another. */
    method ExtractHere(members: seq<Member>)
      requires Valid()
      modifies this
      ensures Valid() && cwd == old(cwd) && dirs == old(dirs)[cwd := ExtractAll(old(Here()), members)]
    {
      var i := 0;
      assert ExtractAll(Here(), members[..0]) == Here();
      while i < |members|
        invariant 0 <= i <= |members|
        invariant Valid() && cwd == old(cwd)
        invariant dirs == old(dirs)[cwd := ExtractAll(old(Here()), members[..i])]
      {
        assert members[..i + 1][..i] == members[..i];
        ghost var e := Entries(members[..i]);
        assert Entries(members[..i + 1]) == e[members[i].name := members[i].content];
        assert (old(Here()) + e)[members[i].name := members[i].content] == old(Here()) + e[members[i].name := members[i].content];
        Write(members[i].name, members[i].content);
        i := i + 1;
      }
      assert members[..i] == members;
    }

    /** The synchronisation steps on the working directory, one file operation at a time. */
    method SyncHere(values: Values, archive: Option<seq<Member>>) returns (sent: Option<Values>, r: Result<seq<string>>)
      requires Valid()
      modifies this
      ensures Valid() && cwd == old(cwd)
      ensures var o := Sync(old(Here()), values, archive);
              sent == o.sent && r == o.result && dirs == old(dirs)[cwd := o.dir]
    {
      var dir := dirs[cwd];
      ghost var o := Sync(dir, values, archive);
      var loaded := LoadMaster(dir);
      if loaded.Err? {
        assert old(dirs)[cwd := o.dir] == old(dirs);
        return None, Err(loaded.error);
      }
      var prior := Prior(loaded.value);
      sent := Some(WithRegistry(values, loaded.value));
      if archive.None? {
        assert old(dirs)[cwd := o.dir] == old(dirs);
        return sent, Err(UrlError);
      }
      var members := archive.value;
      ExtractHere(members);
      ghost var ex := ExtractAll(dir, members);
      assert Here() == ex;
      r := MergeRegistryHere(prior, members);
      if "registry" !in ex {
        assert o.dir == ex && o.result == Err(IOError);
      } else if ex["registry"].Blob? {
        assert o.dir == ex && o.result == Err(JsonError);
      } else {
        assert o.dir == ex["master_registry" := JsonObject(Merge(prior, ex["registry"].entries))] - {"registry"};
      }
    }

    /** After the extraction: `registry` is read, merged into `master_registry` and removed. */
    method MergeRegistryHere(prior: map<string, string>, members: seq<Member>) returns (r: Result<seq<string>>)
      requires Valid()
      modifies this
      ensures Valid() && cwd == old(cwd)
      ensures var here := old(Here());
              if "registry" !in here then r == Err(IOError) && dirs == old(dirs)
              else match here["registry"]
                case Blob(_) => r == Err(JsonError) && dirs == old(dirs)
                case JsonObject(received) =>
                  r == Ok(NewFiles(members)) &&
                  dirs == old(dirs)[cwd := here["master_registry" := JsonObject(Merge(prior, received))] - {"registry"}]
    {
      if "registry" !in Here() {
        return Err(IOError);
      }
      match Here()["registry"]
      case Blob(_) =>
        return Err(JsonError);
      case JsonObject(received) =>
        Write("master_registry", JsonObject(prior + received));
        Remove("registry");
        r := Ok(NewFiles(members));
    }
  }

  /** The directory a relative path names from `cwd`; `.` is `cwd` itself. Paths are not
      normalised and `~` is not expanded. */
  function Resolve(cwd: string, path: string): (d: string)
    ensures path == "." ==> d == cwd
  {
    if path == "." then cwd
    else if |path| > 0 && path[0] == '/' then path
    else cwd + "/" + path
  }

  /** The `cd` context manager: `__enter__` saves the working directory and changes to
      `newPath`; `__exit__` changes back. */
  class Cd {
    var newPath: string
    var savedPath: string

    constructor (newPath: string)
      ensures this.newPath == newPath
    {
      this.newPath := newPath;
      savedPath := "";
    }

    /** `__enter__`: `os.chdir` raises when the directory does not exist, and then the
        working directory is unchanged. */
    method Enter(disk: Disk) returns (r: Result<bool>)
      requires disk.Valid()
      modifies this, disk
      ensures disk.Valid() && disk.dirs == old(disk.dirs) && newPath == old(newPath)
      ensures savedPath == old(disk.cwd)
      ensures r.Ok? <==> Resolve(old(disk.cwd), newPath) in disk.dirs
      ensures disk.cwd == if r.Ok? then Resolve(old(disk.cwd), newPath) else old(disk.cwd)
    {
      savedPath := disk.cwd;
      var target := Resolve(disk.cwd, newPath);
      if target !in disk.dirs {
        return Err(OSError);
      }
      disk.cwd := target;
      return Ok(true);
    }

    /** `__exit__`: back to the saved directory (which still exists: nothing removes
        directories). */
    method Exit(disk: Disk)
      requires savedPath in disk.dirs
      modifies disk
      ensures disk.Valid() && disk.cwd == savedPath && disk.dirs == old(disk.dirs)
    {
      disk.cwd := savedPath;
    }
  }
}
