/** The local file catalog of basic.py: `row_count`, `list_data_files` and
    `list_audio_files`. The file system is a map from path to text, and `os.walk` is
    the sequence of (directory path, file names) steps it would yield. */
module BasicCatalog {
  import opened Results
  import opened Seqs
  import opened Text
  import Calendar

  /** One step of `os.walk`: a directory path and the names of the files in it. */
  datatype WalkStep = WalkStep(path: string, files: seq<string>)

  /** Readable files by path. */
  type Files = map<string, string>

  // ----- row_count -----

  /** A line as file iteration yields it: ends with a newline and holds no other. */
  predicate IsLine(l: string) {
    |l| > 0 && l[|l| - 1] == '\n' && '\n' !in l[..|l| - 1]
  }

  function Concat(ls: seq<string>): string {
    if ls == [] then "" else ls[0] + Concat(ls[1..])
  }

  /** The lines that iterating over an open file yields: each ends just after a newline,
      except a last one that the file ends without a newline. */
  function Lines(c: string): (ls: seq<string>)
    ensures Concat(ls) == c
    ensures forall i :: 0 <= i < |ls| ==> ls[i] != ""
    ensures forall i :: 0 <= i < |ls| - 1 ==> IsLine(ls[i])
    decreases |c|
  {
    if c == "" then []
    else if '\n' in c then
      var k := IndexOf(c, '\n');
      var rest := Lines(c[k + 1..]);
      assert c[..k + 1] + c[k + 1..] == c;
      assert IsLine(c[..k + 1]) by { assert c[..k + 1][..k] == c[..k]; }
      [c[..k + 1]] + rest
    else [c]
  }

  /** Reading back lines that were written out whole gives those same lines. */
  lemma {:induction false} LinesOfConcat(ls: seq<string>)
    requires forall i :: 0 <= i < |ls| ==> IsLine(ls[i])
    ensures Lines(Concat(ls)) == ls
  {
    if ls != [] {
      var l, c := ls[0], Concat(ls);
      assert c == l + Concat(ls[1..]);
      assert c[|l| - 1] == '\n';
      assert c[..|l| - 1] == l[..|l| - 1];
      assert IndexOf(c, '\n') == |l| - 1;
      assert c[..|l|] == l;
      assert c[|l|..] == Concat(ls[1..]);
      assert forall i :: 0 <= i < |ls[1..]| ==> ls[1..][i] == ls[i + 1];
      LinesOfConcat(ls[1..]);
    }
  }

  /** What `row_count(fpath)` returns: the index of the last line, that is the number of
      lines after the header. An empty file leaves the loop variable unbound. */
  function RowCountOf(fs: Files, fpath: string): (r: Result<int>)
    ensures r == Err(IOError) <==> fpath !in fs
    ensures r == Err(UnboundLocalError) <==> fpath in fs && fs[fpath] == ""
    ensures r.Ok? ==> r.value >= 0
  {
    if fpath !in fs then Err(IOError)
    else
      var n := |Lines(fs[fpath])|;
      if n == 0 then Err(UnboundLocalError) else Ok(n - 1)
  }

  /** `row_count(fpath)`: enumerate the lines, keeping the last index. */
  method RowCount(fs: Files, fpath: string) returns (r: Result<int>)
    ensures r == RowCountOf(fs, fpath)
  {
    if fpath !in fs {
      return Err(IOError);
    }
    var lines := Lines(fs[fpath]);
    var i: Option<int> := None;
    var k := 0;
    while k < |lines|
      invariant 0 <= k <= |lines|
      invariant i == if k == 0 then None else Some(k - 1)
    {
      i := Some(k);
      k := k + 1;
    }
    if i.None? {
      return Err(UnboundLocalError);
    }
    return Ok(i.value);
  }

  /** A header line followed by `rows` whole data lines counts `|rows|` rows; an empty
      file raises, and a header alone counts 0. */
  lemma {:induction false} RowCountOfTable(fs: Files, fpath: string, header: string, rows: seq<string>)
    requires fpath in fs && IsLine(header) && forall i :: 0 <= i < |rows| ==> IsLine(rows[i])
    requires fs[fpath] == Concat([header] + rows)
    ensures RowCountOf(fs, fpath) == Ok(|rows|)
  {
    var ls := [header] + rows;
    assert forall i :: 0 <= i < |ls| ==> IsLine(ls[i]) by {
      forall i | 0 <= i < |ls| ensures IsLine(ls[i]) {
        if i > 0 { assert ls[i] == rows[i - 1]; }
      }
    }
    LinesOfConcat(ls);
  }

  /** A file with no text raises instead of counting. */
  lemma {:induction false} RowCountOfEmpty(fs: Files, fpath: string)
    requires fpath in fs && fs[fpath] == ""
    ensures RowCountOf(fs, fpath) == Err(UnboundLocalError)
  {
  }

  // ----- walking -----

  /** `os.path.join(path, name)` */
  function PathJoin(path: string, name: string): (j: string)
    ensures EndsWith(j, name)
    ensures !StartsWith(name, "/") ==> StartsWith(j, path)
  {
    if StartsWith(name, "/") then name
    else
      var dir := if path == "" || EndsWith(path, "/") then path else path + "/";
      EndsWithAppend(dir, name);
      assert (dir + name)[..|path|] == path by { assert dir[..|path|] == path; }
      dir + name
  }

  /** The joined paths of the names that `keep` accepts, in their order. */
  function JoinAll(path: string, names: seq<string>): (r: seq<string>)
    ensures |r| == |names| && forall i :: 0 <= i < |names| ==> r[i] == PathJoin(path, names[i])
  {
    seq(|names|, i requires 0 <= i < |names| => PathJoin(path, names[i]))
  }

  /** The list the inner walk loop adds for one step, one file after the other. */
  function Accepted(path: string, files: seq<string>, keep: string -> bool): seq<string> {
    if files == [] then []
    else
      var name := files[|files| - 1];
      Accepted(path, files[..|files| - 1], keep) + (if keep(name) then [PathJoin(path, name)] else [])
  }

  /** The list the nested walk loops build: every accepted file of every step, in walk order. */
  function Walked(walk: seq<WalkStep>, keep: string -> bool): (r: seq<string>)
    ensures forall f :: f in r ==> exists name :: keep(name) && EndsWith(f, name)
  {
    if walk == [] then []
    else
      var last := walk[|walk| - 1];
      AcceptedEndsWith(last.path, last.files, keep);
      Walked(walk[..|walk| - 1], keep) + Accepted(last.path, last.files, keep)
  }

  /** Every path one step adds ends with one of its file names that `keep` accepts. */
  lemma {:induction false} AcceptedEndsWith(path: string, files: seq<string>, keep: string -> bool)
    ensures forall f :: f in Accepted(path, files, keep) ==> exists name :: name in files && keep(name) && EndsWith(f, name)
  {
    if files != [] {
      var init := files[..|files| - 1];
      var name := files[|files| - 1];
      AcceptedEndsWith(path, init, keep);
      assert forall n :: n in init ==> n in files;
      assert name in files;
    }
  }

  lemma {:induction false} KeepAppend<T(!new)>(a: seq<T>, b: seq<T>, p: T -> bool)
    ensures Keep(a + b, p) == Keep(a, p) + Keep(b, p)
  {
    if a == [] {
      assert a + b == b;
    } else {
      var ab := a + b;
      assert ab[0] == a[0] && ab[1..] == a[1..] + b;
      KeepAppend(a[1..], b, p);
      if p(a[0]) {
        calc {
          Keep(ab, p);
          [a[0]] + Keep(a[1..] + b, p);
          [a[0]] + (Keep(a[1..], p) + Keep(b, p));
          ([a[0]] + Keep(a[1..], p)) + Keep(b, p);
        }
      } else {
        assert Keep(ab, p) == Keep(a[1..] + b, p);
      }
    }
  }

  /** One more accepted name adds its joined path at the end. */
  lemma {:induction false} KeepJoinSnoc(path: string, names: seq<string>, name: string, keep: string -> bool)
    ensures JoinAll(path, Keep(names + [name], keep)) ==
            JoinAll(path, Keep(names, keep)) + (if keep(name) then [PathJoin(path, name)] else [])
  {
    KeepAppend(names, [name], keep);
    assert Keep([name], keep) == if keep(name) then [name] else [];
  }

  /** What one step adds is the comprehension: the accepted names, in order, joined to the path. */
  lemma {:induction false} AcceptedIsJoinKeep(path: string, files: seq<string>, keep: string -> bool)
    ensures Accepted(path, files, keep) == JoinAll(path, Keep(files, keep))
  {
    if files != [] {
      var init := files[..|files| - 1];
      var name := files[|files| - 1];
      var added := if keep(name) then [PathJoin(path, name)] else [];
      assert init + [name] == files;
      calc {
        Accepted(path, files, keep);
        Accepted(path, init, keep) + added;
        { AcceptedIsJoinKeep(path, init, keep); }
        JoinAll(path, Keep(init, keep)) + added;
        { KeepJoinSnoc(path, init, name, keep); }
        JoinAll(path, Keep(init + [name], keep));
      }
    }
  }

  /** One more file: the step of the inner loop. */
  lemma {:induction false} AcceptedSnoc(path: string, files: seq<string>, j: int, keep: string -> bool)
    requires 0 <= j < |files|
    ensures Accepted(path, files[..j + 1], keep) ==
            Accepted(path, files[..j], keep) + (if keep(files[j]) then [PathJoin(path, files[j])] else [])
  {
    assert files[..j + 1][..j] == files[..j];
  }

  lemma {:induction false} AppendAssoc(a: seq<string>, b: seq<string>, c: seq<string>)
    ensures (a + b) + c == a + (b + c)
  {
  }

  /** One more walk step adds its accepted files at the end. */
  lemma {:induction false} WalkedSnoc(walk: seq<WalkStep>, i: int, keep: string -> bool)
    requires 0 <= i < |walk|
    ensures Walked(walk[..i + 1], keep) == Walked(walk[..i], keep) + Accepted(walk[i].path, walk[i].files, keep)
  {
    assert walk[..i + 1][..i] == walk[..i];
  }

  /** The walk loops: `for path, subdirs, files in os.walk(upath): for name in files: if
      keep(name): flist.append(os.path.join(path, name))`. */
  method WalkFiles(walk: seq<WalkStep>, keep: string -> bool) returns (flist: seq<string>)
    ensures flist == Walked(walk, keep)
  {
    flist := [];
    var i := 0;
    while i < |walk|
      invariant 0 <= i <= |walk|
      invariant flist == Walked(walk[..i], keep)
    {
      flist := AppendAccepted(flist, walk[i].path, walk[i].files, keep);
      WalkedSnoc(walk, i, keep);
      i := i + 1;
    }
    assert walk[..i] == walk;
  }

  /** The inner loop over the files of one walk step. */
  method AppendAccepted(flist: seq<string>, path: string, files: seq<string>, keep: string -> bool)
    returns (r: seq<string>)
    ensures r == flist + Accepted(path, files, keep)
  {
    r := flist;
    var j := 0;
    assert files[..0] == [];
    while j < |files|
      invariant 0 <= j <= |files|
      invariant r == flist + Accepted(path, files[..j], keep)
    {
      var name := files[j];
      AcceptedSnoc(path, files, j, keep);
      if keep(name) {
        ghost var acc := Accepted(path, files[..j], keep);
        AppendAssoc(flist, acc, [PathJoin(path, name)]);
        r := r + [PathJoin(path, name)];
      } else {
        assert Accepted(path, files[..j + 1], keep) == Accepted(path, files[..j], keep) + [];
      }
      j := j + 1;
    }
    assert files[..j] == files;
  }

  /** Every walked file comes from some step and was accepted by `keep`. */
  lemma {:induction false} WalkedFrom(walk: seq<WalkStep>, keep: string -> bool, f: string)
    requires f in Walked(walk, keep)
    ensures exists i, name :: 0 <= i < |walk| && name in walk[i].files && keep(name) && f == PathJoin(walk[i].path, name)
  {
    var last := walk[|walk| - 1];
    var tail := JoinAll(last.path, Keep(last.files, keep));
    AcceptedIsJoinKeep(last.path, last.files, keep);
    if f in tail {
      var j :| 0 <= j < |tail| && tail[j] == f;
      var name := Keep(last.files, keep)[j];
      assert name in Keep(last.files, keep);
    } else {
      WalkedFrom(walk[..|walk| - 1], keep, f);
      var i, name :| 0 <= i < |walk| - 1 && name in walk[..|walk| - 1][i].files && keep(name) &&
                     f == PathJoin(walk[..|walk| - 1][i].path, name);
      assert walk[..|walk| - 1][i] == walk[i];
    }
  }

  // ----- the stream filter -----

  /** `f.split('/')[-2].startswith(stream) or f.split('/')[-3].startswith(stream)`: a
      negative index beyond the start raises, and the grandparent is read only when the
      parent does not match. */
  function StreamMatch(f: string, stream: string): (r: Result<bool>)
    ensures '/' !in f ==> r == Err(IndexError)
    ensures r.Err? ==> r.error == IndexError
  {
    var parts := Split(f, '/');
    if '/' !in f then SplitNoSeparator(f, '/'); Err(IndexError) else
    if |parts| < 2 then Err(IndexError)
    else if StartsWith(parts[|parts| - 2], stream) then Ok(true)
    else if |parts| < 3 then Err(IndexError)
    else Ok(StartsWith(parts[|parts| - 3], stream))
  }

  /** The stream subset: none for `'all'`. */
  function StreamFilter(flist: seq<string>, stream: string): (r: Result<seq<string>>)
    ensures stream == "all" ==> r == Ok(flist)
    ensures r.Ok? ==> IsSubseq(r.value, flist)
    ensures r.Ok? && stream != "all" ==> forall f :: f in r.value <==> f in flist && StreamMatch(f, stream) == Ok(true)
    ensures r.Err? ==> r.error == IndexError
  {
    if stream == "all" then SubseqRefl(flist); Ok(flist) else FilterR(flist, f => StreamMatch(f, stream))
  }

  /** For a file in a directory given by its components, none of them empty or holding a
      `/`, the stream test reads the parent directory and, only when that fails, the
      grandparent; a file directly under a one-component directory whose name does not
      match raises. */
  lemma {:induction false} StreamMatchOfComponents(dirs: seq<string>, name: string, stream: string)
    requires |dirs| >= 1
    requires forall i :: 0 <= i < |dirs| ==> dirs[i] != "" && '/' !in dirs[i]
    requires '/' !in name
    ensures var parent := dirs[|dirs| - 1];
            StreamMatch(PathJoin(Join(dirs, '/'), name), stream) ==
              if StartsWith(parent, stream) then Ok(true)
              else if |dirs| == 1 then Err(IndexError)
              else Ok(StartsWith(dirs[|dirs| - 2], stream))
  {
    JoinNotEmpty(dirs);
    var path := Join(dirs, '/');
    assert !StartsWith(name, "/") by {
      if |name| >= 1 { assert name[0] in name; }
    }
    JoinLast(dirs);
    assert PathJoin(path, name) == Join(dirs + [name], '/') by {
      assert (dirs + [name])[..|dirs|] == dirs;
    }
    var all := dirs + [name];
    assert forall i :: 0 <= i < |all| ==> '/' !in all[i] by {
      forall i | 0 <= i < |all| ensures '/' !in all[i] {
        if i < |dirs| { assert all[i] == dirs[i]; }
      }
    }
    SplitJoin(all, '/');
  }

  /** `Join` of non-empty pieces is non-empty. */
  lemma {:induction false} JoinNotEmpty(parts: seq<string>)
    requires |parts| >= 1 && parts[|parts| - 1] != ""
    ensures Join(parts, '/') != ""
  {
  }

  /** `Join` of pieces whose last one is non-empty and holds no `/` does not end with `/`. */
  lemma {:induction false} JoinLast(parts: seq<string>)
    requires |parts| >= 1 && parts[|parts| - 1] != "" && '/' !in parts[|parts| - 1]
    ensures !EndsWith(Join(parts, '/'), "/")
  {
    var j := Join(parts, '/');
    var last := parts[|parts| - 1];
    assert EndsWith(j, last) by {
      if |parts| > 1 {
        EndsWithAppend(Join(parts[..|parts| - 1], '/') + ['/'], last);
      } else {
        EndsWithAppend("", last);
      }
    }
    assert j[|j| - 1] == last[|last| - 1];
    assert last[|last| - 1] in last;
  }

  // ----- the non-empty filter -----

  /** `[f for f in flist if row_count(f) > 0]`: a missing or text-less file raises. */
  function NonEmpty(fs: Files, flist: seq<string>): (r: Result<seq<string>>)
    ensures r.Ok? <==> forall i :: 0 <= i < |flist| ==> RowCountOf(fs, flist[i]).Ok?
    ensures r.Ok? ==> IsSubseq(r.value, flist)
    ensures r.Ok? ==> forall f :: f in r.value <==> f in flist && RowCountOf(fs, f).Ok? && RowCountOf(fs, f).value > 0
    ensures r.Err? ==> r.error == IOError || r.error == UnboundLocalError
  {
    FilterR(flist, f => match RowCountOf(fs, f) case Ok(n) => Ok(n > 0) case Err(e) => Err(e))
  }

  // ----- the time window -----

  /** `f.split('/')[-1].split('.')[-2]`: the second-to-last `.`-piece of the file name. */
  function TimeToken(f: string): (r: Result<string>)
    ensures r.Ok? ==> '.' !in r.value
    ensures r.Err? ==> r.error == IndexError
  {
    var parts := Split(f, '/');
    var dots := Split(parts[|parts| - 1], '.');
    if |dots| < 2 then Err(IndexError) else Ok(dots[|dots| - 2])
  }

  /** The time of a file by `strptime(token, '%Y-%m-%d %H_%M_%S')`, given as `parse`,
      in seconds; a token it refuses raises. */
  function FileTime(f: string, parse: string -> Option<int>): (r: Result<int>)
    ensures r.Ok? <==> TimeToken(f).Ok? && parse(TimeToken(f).value).Some?
    ensures r.Ok? ==> r.value == parse(TimeToken(f).value).value
    ensures r.Err? ==> r.error == IndexError || r.error == ValueError
  {
    var token :- TimeToken(f);
    TokenTime(token, parse)
  }

  /** `strptime` of one token, given as `parse`; a token it refuses raises `ValueError`. */
  function TokenTime(token: string, parse: string -> Option<int>): (r: Result<int>)
    ensures r.Ok? <==> parse(token).Some?
    ensures r.Ok? ==> r.value == parse(token).value
    ensures r.Err? ==> r.error == ValueError
  {
    match parse(token)
    case None => Err(ValueError)
    case Some(t) => Ok(t)
  }

  /** The two comprehensions of basic.py: every file's token is read before any token is
      parsed, so a file without a token raises `IndexError` even when an earlier token
      does not parse. */
  function FileTimes(flist: seq<string>, parse: string -> Option<int>): (r: Result<seq<int>>)
    ensures r.Ok? <==> forall i :: 0 <= i < |flist| ==> FileTime(flist[i], parse).Ok?
    ensures r.Ok? ==> |r.value| == |flist| &&
                      forall i :: 0 <= i < |flist| ==> r.value[i] == FileTime(flist[i], parse).value
    ensures r.Err? ==> r.error == IndexError || r.error == ValueError
  {
    var tokens :- MapR(flist, TimeToken);
    assert forall i :: 0 <= i < |flist| ==> FileTime(flist[i], parse) == TokenTime(tokens[i], parse);
    MapR(tokens, t => TokenTime(t, parse))
  }

  /** `list(np.array(flist)[bools])` with `bools[i] = lo <= times[i] <= hi`. */
  function Window(flist: seq<string>, times: seq<int>, lo: int, hi: int): (r: seq<string>)
    requires |times| == |flist|
    ensures IsSubseq(r, flist)
    ensures forall i :: 0 <= i < |flist| && lo <= times[i] <= hi ==> flist[i] in r
    ensures forall f :: f in r ==> exists i :: 0 <= i < |flist| && flist[i] == f && lo <= times[i] <= hi
  {
    if flist == [] then []
    else
      var rest := Window(flist[1..], times[1..], lo, hi);
      assert forall i :: 1 <= i < |flist| ==> flist[i] == flist[1..][i - 1] && times[i] == times[1..][i - 1];
      SubseqRefl(flist[1..]);
      if lo <= times[0] <= hi then [flist[0]] + rest else rest
  }

  /** `idx` lists, in increasing order, exactly the indices of `flist` whose time lies in
      `[lo, hi]`: the positions a boolean mask of those comparisons selects. */
  ghost predicate Selects<T>(idx: seq<int>, flist: seq<T>, times: seq<int>, lo: int, hi: int)
    requires |times| == |flist|
  {
    (forall k :: 0 <= k < |idx| ==> 0 <= idx[k] < |flist|) &&
    (forall k, m :: 0 <= k < m < |idx| ==> idx[k] < idx[m]) &&
    (forall i :: 0 <= i < |flist| ==> (i in idx <==> lo <= times[i] <= hi))
  }

  /** `r` lists the files `flist` holds at the indices `idx`, in that order. */
  ghost predicate Picks<T>(r: seq<T>, idx: seq<int>, flist: seq<T>) {
    |idx| == |r| && forall k :: 0 <= k < |idx| ==> 0 <= idx[k] < |flist| && r[k] == flist[idx[k]]
  }

  /** `r` lists the files that the in-window indices `idx` select. */
  ghost predicate Selection(r: seq<string>, idx: seq<int>, flist: seq<string>, times: seq<int>, lo: int, hi: int)
    requires |times| == |flist|
  {
    Selects(idx, flist, times, lo, hi) && Picks(r, idx, flist)
  }

  /** Every index moved one place on. */
  function Inc(idx: seq<int>): (r: seq<int>)
    ensures |r| == |idx| && forall k :: 0 <= k < |idx| ==> r[k] == idx[k] + 1
  {
    seq(|idx|, k requires 0 <= k < |idx| => idx[k] + 1)
  }

  /** A selection for `flist[1..]`, moved one place on, with `0` in front when the first
      file is in the window, is a selection for `flist`. */
  lemma {:induction false} ShiftedSelects<T>(idx: seq<int>, flist: seq<T>, times: seq<int>, lo: int, hi: int)
    requires |times| == |flist| && flist != []
    requires Selects(idx, flist[1..], times[1..], lo, hi)
    ensures Selects(if lo <= times[0] <= hi then [0] + Inc(idx) else Inc(idx), flist, times, lo, hi)
  {
    var sh := Inc(idx);
    forall i | 1 <= i < |flist| ensures i in sh <==> lo <= times[i] <= hi {
      assert times[1..][i - 1] == times[i];
      if i in sh {
        var k :| 0 <= k < |sh| && sh[k] == i;
        assert idx[k] == i - 1;
      }
      if i - 1 in idx {
        var k :| 0 <= k < |idx| && idx[k] == i - 1;
        assert sh[k] == i;
      }
    }
    assert 0 !in sh;
    if lo <= times[0] <= hi {
      var r := [0] + sh;
      assert forall k :: 1 <= k < |r| ==> r[k] == sh[k - 1];
      assert forall i :: 0 <= i < |flist| ==> (i in r <==> i == 0 || i in sh);
    }
  }

  /** The tail's picks, moved one place on, with the first file in front. */
  lemma {:induction false} KeptPicks<T>(flist: seq<T>, idx: seq<int>, rest: seq<T>)
    requires flist != [] && Picks(rest, idx, flist[1..])
    ensures Picks([flist[0]] + rest, [0] + Inc(idx), flist)
  {
    var sh := Inc(idx);
    assert forall k :: 0 <= k < |sh| ==> 0 <= sh[k] < |flist| && rest[k] == flist[sh[k]];
    var r, j := [flist[0]] + rest, [0] + sh;
    assert forall k :: 1 <= k < |j| ==> j[k] == sh[k - 1] && r[k] == rest[k - 1];
  }

  /** The tail's picks, moved one place on. */
  lemma {:induction false} DroppedPicks<T>(flist: seq<T>, idx: seq<int>, rest: seq<T>)
    requires flist != [] && Picks(rest, idx, flist[1..])
    ensures Picks(rest, Inc(idx), flist)
  {
    assert forall k :: 0 <= k < |idx| ==> rest[k] == flist[Inc(idx)[k]];
  }

  /** The window is the mask's selection: its k-th entry is the file at the k-th selected
      index, so repeated paths are kept once per in-window position. */
  lemma {:induction false} WindowSelects(flist: seq<string>, times: seq<int>, lo: int, hi: int)
    requires |times| == |flist|
    ensures exists idx :: Selection(Window(flist, times, lo, hi), idx, flist, times, lo, hi)
  {
    if flist == [] {
      assert Window(flist, times, lo, hi) == [];
      assert Selection([], [], flist, times, lo, hi);
    } else {
      var f1, t1 := flist[1..], times[1..];
      WindowSelects(f1, t1, lo, hi);
      var rest := Window(f1, t1, lo, hi);
      var idx' :| Selection(rest, idx', f1, t1, lo, hi);
      ShiftedSelects(idx', flist, times, lo, hi);
      var r := Window(flist, times, lo, hi);
      if lo <= times[0] <= hi {
        KeptPicks(flist, idx', rest);
        assert r == [flist[0]] + rest;
        assert Selection(r, [0] + Inc(idx'), flist, times, lo, hi);
      } else {
        DroppedPicks(flist, idx', rest);
        assert r == rest;
        assert Selection(r, Inc(idx'), flist, times, lo, hi);
      }
    }
  }

  /** The time subset: none when both bounds are `None`; a missing bound is the earliest
      time less an hour or the latest plus an hour, and `min`/`max` of no times raise.
      That hour taken off before `datetime.min` or added past `datetime.max` overflows. */
  function TimeWindow(flist: seq<string>, startT: Option<int>, endT: Option<int>,
                      parse: string -> Option<int>): (r: Result<seq<string>>)
    ensures startT.None? && endT.None? ==> r == Ok(flist)
    ensures r.Ok? ==> IsSubseq(r.value, flist) && forall f :: f in r.value ==> f in flist
    ensures r.Err? ==> r.error == IndexError || r.error == ValueError || r.error == OverflowError
  {
    if startT.None? && endT.None? then SubseqRefl(flist); Ok(flist)
    else
      var times :- FileTimes(flist, parse);
      if (startT.None? || endT.None?) && times == [] then Err(ValueError)
      else
        var lo := if startT.Some? then startT.value else Min(times) - 3600;
        var hi := if endT.Some? then endT.value else Max(times) + 3600;
        if (startT.None? && lo < Calendar.MinSecond) || (endT.None? && hi > Calendar.MaxSecond) then Err(OverflowError)
        else Ok(Window(flist, times, lo, hi))
  }

  /** With a bound given, a file without a time token makes the time subset raise
      `IndexError`, whatever the other files' tokens parse to. */
  lemma {:induction false} TokenlessFileRaises(flist: seq<string>, startT: Option<int>, endT: Option<int>,
                                               parse: string -> Option<int>, i: int)
    requires startT.Some? || endT.Some?
    requires 0 <= i < |flist| && TimeToken(flist[i]).Err?
    ensures TimeWindow(flist, startT, endT, parse) == Err(IndexError)
  {
    var tokens := MapR(flist, TimeToken);
    assert tokens.Err?;
    assert FileTimes(flist, parse) == Err(IndexError);
  }

  /** The tokens are all read first: a token-less file raises `IndexError` even when the
      file before it has a token that does not parse. */
  lemma TokensBeforeParse()
    ensures TimeWindow(["d/b.c", "d/n"], Some(0), None, _ => None) == Err(IndexError)
  {
    assert "d" + ['/'] + "n" == "d/n";
    SplitAppend("d", "n", '/');
    SplitNoSeparator("d", '/');
    SplitNoSeparator("n", '.');
    TokenlessFileRaises(["d/b.c", "d/n"], Some(0), None, _ => None, 1);
  }

  /** Without a start, a file stamped in the first hour of year 1 makes the listing
      overflow; with both bounds the same file is kept or dropped as the window says. */
  lemma {:induction false} EarlyFileOverflows(flist: seq<string>, endT: int, parse: string -> Option<int>, i: int)
    requires forall j :: 0 <= j < |flist| ==> FileTime(flist[j], parse).Ok?
    requires 0 <= i < |flist| && FileTime(flist[i], parse).value < Calendar.MinSecond + 3600
    ensures TimeWindow(flist, None, Some(endT), parse) == Err(OverflowError)
    ensures forall lo :: TimeWindow(flist, Some(lo), Some(endT), parse).Ok?
  {
    var times := FileTimes(flist, parse).value;
    assert times[i] in times;
  }

  /** Without an end, a file stamped in the last hour of year 9999 makes the listing
      overflow. */
  lemma {:induction false} LateFileOverflows(flist: seq<string>, startT: int, parse: string -> Option<int>, i: int)
    requires forall j :: 0 <= j < |flist| ==> FileTime(flist[j], parse).Ok?
    requires 0 <= i < |flist| && FileTime(flist[i], parse).value > Calendar.MaxSecond - 3600
    ensures TimeWindow(flist, Some(startT), None, parse) == Err(OverflowError)
  {
    var times := FileTimes(flist, parse).value;
    assert times[i] in times;
  }

  /** When every file parses and every time lies an hour inside the `datetime` range, the
      time subset with at least one bound and at least one file succeeds. */
  lemma {:induction false} TimeWindowSucceeds(flist: seq<string>, startT: Option<int>, endT: Option<int>,
                           parse: string -> Option<int>)
    requires startT.Some? || endT.Some?
    requires flist != [] || (startT.Some? && endT.Some?)
    requires forall j :: 0 <= j < |flist| ==>
               FileTime(flist[j], parse).Ok? &&
               Calendar.MinSecond + 3600 <= FileTime(flist[j], parse).value <= Calendar.MaxSecond - 3600
    ensures TimeWindow(flist, startT, endT, parse).Ok?
  {
    assert FileTimes(flist, parse).Ok?;
    var times := FileTimes(flist, parse).value;
    assert forall j :: 0 <= j < |times| ==> Calendar.MinSecond + 3600 <= times[j] <= Calendar.MaxSecond - 3600;
    if times != [] {
      InnerTimes(times);
    }
  }

  /** When every time lies an hour inside the `datetime` range, so do the earliest and
      the latest. */
  lemma {:induction false} InnerTimes(times: seq<int>)
    requires times != []
    requires forall j :: 0 <= j < |times| ==> Calendar.MinSecond + 3600 <= times[j] <= Calendar.MaxSecond - 3600
    ensures Calendar.MinSecond <= Min(times) - 3600 && Max(times) + 3600 <= Calendar.MaxSecond
  {
    var a :| 0 <= a < |times| && times[a] == Min(times);
    var b :| 0 <= b < |times| && times[b] == Max(times);
  }

  /** With a bound given, a file survives the time subset exactly when its time lies in
      the inclusive window, whose missing side lies an hour beyond every file's time. */
  lemma {:induction false} TimeWindowKeeps(flist: seq<string>, startT: Option<int>, endT: Option<int>,
                        parse: string -> Option<int>, i: int)
    requires startT.Some? || endT.Some?
    requires TimeWindow(flist, startT, endT, parse).Ok?
    requires 0 <= i < |flist|
    ensures FileTime(flist[i], parse).Ok?
    ensures var t := FileTime(flist[i], parse).value;
            (startT.Some? ==> startT.value <= t) && (endT.Some? ==> t <= endT.value) ==>
              flist[i] in TimeWindow(flist, startT, endT, parse).value
  {
    var times := FileTimes(flist, parse).value;
    assert times[i] in times;
  }

  /** Every file that survives the time subset has a time inside the given bounds. */
  lemma {:induction false} TimeWindowBounds(flist: seq<string>, startT: Option<int>, endT: Option<int>,
                         parse: string -> Option<int>, f: string)
    requires startT.Some? || endT.Some?
    requires TimeWindow(flist, startT, endT, parse).Ok?
    requires f in TimeWindow(flist, startT, endT, parse).value
    ensures exists i :: 0 <= i < |flist| && flist[i] == f && FileTime(f, parse).Ok? &&
                        (startT.Some? ==> startT.value <= FileTime(f, parse).value) &&
                        (endT.Some? ==> FileTime(f, parse).value <= endT.value)
  {
  }

  /** With one bound, every file on the open side of it is kept. */
  lemma {:induction false} OneSidedKeepsOpenSide(flist: seq<string>, lo: int, parse: string -> Option<int>, i: int)
    requires TimeWindow(flist, Some(lo), None, parse).Ok?
    requires 0 <= i < |flist| && FileTime(flist[i], parse).value >= lo
    ensures flist[i] in TimeWindow(flist, Some(lo), None, parse).value
  {
    TimeWindowKeeps(flist, Some(lo), None, parse, i);
  }

  /** The last `/`-piece of a path joined with a name that holds no `/` is that name. */
  lemma {:induction false} LastPieceOfJoin(path: string, name: string)
    requires '/' !in name
    ensures var parts := Split(PathJoin(path, name), '/'); parts[|parts| - 1] == name
  {
    var f := PathJoin(path, name);
    assert !StartsWith(name, "/") by {
      if |name| >= 1 { assert name[0] in name; }
    }
    if path == "" {
      assert f == name;
      SplitNoSeparator(name, '/');
    } else if EndsWith(path, "/") {
      var p := path[..|path| - 1];
      assert path == p + ['/'];
      assert f == p + ['/'] + name;
      SplitAppend(p, name, '/');
    } else {
      assert f == path + ['/'] + name;
      SplitAppend(path, name, '/');
    }
  }

  /** The name of a data file is `<stamp>.csv`: its time token is the stamp. */
  lemma {:induction false} TimeTokenOfName(path: string, stamp: string, ext: string)
    requires '/' !in stamp && '.' !in stamp && '/' !in ext && '.' !in ext
    ensures TimeToken(PathJoin(path, stamp + "." + ext)) == Ok(stamp)
  {
    var name := stamp + "." + ext;
    assert '/' !in name by {
      assert forall k :: 0 <= k < |name| ==> name[k] == (if k < |stamp| then stamp[k] else if k == |stamp| then '.' else ext[k - |stamp| - 1]);
    }
    LastPieceOfJoin(path, name);
    SplitAppend(stamp, ext, '.');
    SplitNoSeparator(stamp, '.');
    assert Split(name, '.') == [stamp, ext];
    var f := PathJoin(path, name);
    var parts := Split(f, '/');
    assert parts[|parts| - 1] == name;
    var dots := Split(parts[|parts| - 1], '.');
    assert dots == [stamp, ext];
    assert TimeToken(f) == Ok(dots[|dots| - 2]);
    assert stamp + "." + ext == name;
  }

  // ----- the two listings -----

  predicate IsCsv(name: string) { EndsWith(name, ".csv") }

  predicate IsAudio(name: string, mp4only: bool) {
    if mp4only then EndsWith(name, ".mp4") else EndsWith(name, ".mp4") || EndsWith(name, ".wav")
  }

  /** When every accepted name ends with `suffix`, so does every walked path. */
  lemma {:induction false} WalkedEndsWith(walk: seq<WalkStep>, keep: string -> bool, suffix: string)
    requires forall name :: keep(name) ==> EndsWith(name, suffix)
    ensures forall f :: f in Walked(walk, keep) ==> EndsWith(f, suffix)
  {
    forall f | f in Walked(walk, keep)
      ensures EndsWith(f, suffix)
    {
      var name :| keep(name) && EndsWith(f, name);
      EndsWithTrans(f, name, suffix);
    }
  }

  /** What `list_data_files(upath, stream, start_t, end_t)` returns or raises. */
  function DataListing(fs: Files, walk: seq<WalkStep>, stream: string, startT: Option<int>,
                       endT: Option<int>, parse: string -> Option<int>): (r: Result<seq<string>>)
    ensures r.Err? ==> r.error in {IndexError, IOError, UnboundLocalError, ValueError, OverflowError}
    ensures r.Ok? ==> forall f :: f in r.value ==> f in Walked(walk, IsCsv) && EndsWith(f, ".csv")
  {
    WalkedEndsWith(walk, IsCsv, ".csv");
    var walked := Walked(walk, IsCsv);
    var inStream :- StreamFilter(walked, stream);
    var nonEmpty :- NonEmpty(fs, inStream);
    TimeWindow(nonEmpty, startT, endT, parse)
  }

  /** `list_data_files`: walk, then reassign the list through each filter in turn. */
  method ListDataFiles(fs: Files, walk: seq<WalkStep>, stream: string, startT: Option<int>,
                       endT: Option<int>, parse: string -> Option<int>) returns (r: Result<seq<string>>)
    ensures r == DataListing(fs, walk, stream, startT, endT, parse)
  {
    var flist := WalkFiles(walk, IsCsv);
    if stream != "all" {
      flist :- FilterR(flist, f => StreamMatch(f, stream));
    }
    flist :- NonEmpty(fs, flist);
    if startT.Some? || endT.Some? {
      r := TimeWindow(flist, startT, endT, parse);
    } else {
      r := Ok(flist);
    }
  }

  /** What `list_audio_files(upath, mp4only, start_t, end_t)` returns or raises. */
  function AudioListing(walk: seq<WalkStep>, mp4only: bool, startT: Option<int>, endT: Option<int>,
                        parse: string -> Option<int>): (r: Result<seq<string>>)
    ensures startT.None? && endT.None? ==> r == Ok(Walked(walk, name => IsAudio(name, mp4only)))
    ensures r.Ok? ==> IsSubseq(r.value, Walked(walk, name => IsAudio(name, mp4only)))
    ensures r.Err? ==> r.error in {IndexError, ValueError, OverflowError}
    ensures r.Ok? && mp4only ==> forall f :: f in r.value ==> EndsWith(f, ".mp4")
  {
    var keep := name => IsAudio(name, mp4only);
    if mp4only then
      WalkedEndsWith(walk, keep, ".mp4");
      TimeWindow(Walked(walk, keep), startT, endT, parse)
    else TimeWindow(Walked(walk, keep), startT, endT, parse)
  }

  /** `list_audio_files`: walk for `.mp4` (and `.wav` unless `mp4only`), then the time subset. */
  method ListAudioFiles(walk: seq<WalkStep>, mp4only: bool, startT: Option<int>, endT: Option<int>,
                        parse: string -> Option<int>) returns (r: Result<seq<string>>)
    ensures r == AudioListing(walk, mp4only, startT, endT, parse)
  {
    var flist := WalkFiles(walk, name => IsAudio(name, mp4only));
    if startT.Some? || endT.Some? {
      r := TimeWindow(flist, startT, endT, parse);
    } else {
      r := Ok(flist);
    }
  }

  /** Each filter keeps a subsequence, so the data listing is the walk's `.csv` files
      with some left out and the rest in walk order. */
  lemma {:induction false} DataListingIsSubseq(fs: Files, walk: seq<WalkStep>, stream: string, startT: Option<int>,
                            endT: Option<int>, parse: string -> Option<int>)
    requires DataListing(fs, walk, stream, startT, endT, parse).Ok?
    ensures IsSubseq(DataListing(fs, walk, stream, startT, endT, parse).value, Walked(walk, IsCsv))
  {
    var walked := Walked(walk, IsCsv);
    var a := StreamFilter(walked, stream).value;
    var b := NonEmpty(fs, a).value;
    var c := TimeWindow(b, startT, endT, parse).value;
    if stream == "all" { SubseqRefl(walked); }
    if startT.None? && endT.None? { SubseqRefl(b); }
    SubseqTrans(b, a, walked);
    SubseqTrans(c, b, walked);
  }

  /** Every listed data file is a `.csv` file of the walk with at least one data row, and
      matches the stream unless the stream is `'all'`. */
  lemma {:induction false} DataListingMembers(fs: Files, walk: seq<WalkStep>, stream: string, startT: Option<int>,
                           endT: Option<int>, parse: string -> Option<int>, f: string)
    requires DataListing(fs, walk, stream, startT, endT, parse).Ok?
    requires f in DataListing(fs, walk, stream, startT, endT, parse).value
    ensures exists i, name :: 0 <= i < |walk| && name in walk[i].files && IsCsv(name) && f == PathJoin(walk[i].path, name)
    ensures stream != "all" ==> StreamMatch(f, stream) == Ok(true)
    ensures RowCountOf(fs, f).Ok? && RowCountOf(fs, f).value > 0
  {
    var walked := Walked(walk, IsCsv);
    var a := StreamFilter(walked, stream).value;
    var b := NonEmpty(fs, a).value;
    assert f in b by {
      if startT.Some? || endT.Some? {
        var times := FileTimes(b, parse).value;
      }
    }
    assert f in a;
    assert f in walked;
    WalkedFrom(walk, IsCsv, f);
  }

  /** Conversely, when the listing succeeds, every walked `.csv` file that matches the
      stream and holds a data row is listed, as long as its time lies within the bounds. */
  lemma {:induction false} DataListingKeeps(fs: Files, walk: seq<WalkStep>, stream: string, startT: Option<int>,
                         endT: Option<int>, parse: string -> Option<int>, f: string)
    requires DataListing(fs, walk, stream, startT, endT, parse).Ok?
    requires f in Walked(walk, IsCsv)
    requires stream == "all" || StreamMatch(f, stream) == Ok(true)
    requires RowCountOf(fs, f).Ok? && RowCountOf(fs, f).value > 0
    ensures (startT.Some? || endT.Some?) ==> FileTime(f, parse).Ok?
    ensures (startT.None? && endT.None?) ||
            ((startT.Some? ==> startT.value <= FileTime(f, parse).value) &&
             (endT.Some? ==> FileTime(f, parse).value <= endT.value)) ==>
              f in DataListing(fs, walk, stream, startT, endT, parse).value
  {
    var walked := Walked(walk, IsCsv);
    var a := StreamFilter(walked, stream).value;
    assert f in a;
    var b := NonEmpty(fs, a).value;
    assert f in b;
    if startT.Some? || endT.Some? {
      var i :| 0 <= i < |b| && b[i] == f;
      TimeWindowKeeps(b, startT, endT, parse, i);
    }
  }

  /** With stream `'all'`, no bounds and every walked file holding a data row, the
      listing is every walked `.csv` file in walk order. */
  lemma {:induction false} DataListingAll(fs: Files, walk: seq<WalkStep>, parse: string -> Option<int>)
    requires forall f :: f in Walked(walk, IsCsv) ==> RowCountOf(fs, f).Ok? && RowCountOf(fs, f).value > 0
    ensures DataListing(fs, walk, "all", None, None, parse) == Ok(Walked(walk, IsCsv))
  {
    var walked := Walked(walk, IsCsv);
    assert forall i :: 0 <= i < |walked| ==> walked[i] in walked;
  }

  /** Without bounds no file time is parsed: the listing is the same whatever `strptime` does. */
  lemma {:induction false} NoBoundsNoParse(fs: Files, walk: seq<WalkStep>, stream: string,
                        parse1: string -> Option<int>, parse2: string -> Option<int>)
    ensures DataListing(fs, walk, stream, None, None, parse1) == DataListing(fs, walk, stream, None, None, parse2)
    ensures AudioListing(walk, true, None, None, parse1) == Ok(Walked(walk, name => IsAudio(name, true)))
  {
  }
}
