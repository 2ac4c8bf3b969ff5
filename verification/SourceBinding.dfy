// From the compiler's source annotations to the location of a pc (onchain/src/source.rs): a binding
// interns the file each statement is shown in (`code_locations`), is read back by position
// (`load_dir`), and is spread over the statements' CASM ranges (`apply`).
module SourceBinding {
  import opened Common

  // One entry of a statement's inlining chain, counted from 0 as the compiler does.
  datatype Location = Location(abs: Option<string>, generated: bool, line: nat, col: nat)

  // One key of the annotation: the statement index it parses to, if any, and its entries.
  datatype Keyed = Keyed(index: Option<nat>, entries: seq<Location>)

  // What a build machine provides: how a path is named stably, a file's text, and the text's hash.
  datatype Machine = Machine(
    stable: string -> Option<string>,
    read: string -> Option<string>,
    sha: string -> string)

  datatype Place = Place(file: nat, line: nat, col: nat)
  datatype FileDoc = FileDoc(index: nat, path: string, sha: string, text: Option<string>)
  datatype Document = Document(locations: seq<Option<Place>>, files: seq<FileDoc>)
  datatype Failure = BadIndex | NoFile | Unstable | Unreadable | WrongHash | WrongCount

  // ---- The location a statement is shown at ---------------------------------------------

  // Entry `k` is the innermost one that is not macro-generated, or the innermost of all when every one is.
  ghost predicate Written(entries: seq<Location>, k: nat) {
    && k < |entries|
    && if entries[k].generated then k == 0 && forall j :: 0 <= j < |entries| ==> entries[j].generated
       else forall j :: 0 <= j < k ==> entries[j].generated
  }

  ghost predicate IsPicked(entries: seq<Location>, e: Location) {
    exists k: nat :: Written(entries, k) && entries[k] == e
  }

  function Pick(entries: seq<Location>): Option<Location> {
    var k := FirstWritten(entries, 0);
    if k < |entries| then Some(entries[k])
    else if entries != [] then Some(entries[0])
    else None
  }

  // One entry is picked of every list that has any.
  lemma {:induction false} PickIs(entries: seq<Location>)
    ensures Pick(entries) == None <==> entries == []
    ensures forall e :: Pick(entries) == Some(e) <==> IsPicked(entries, e)
  {
    var k := FirstWritten(entries, 0);
    if entries != [] {
      var at := if k < |entries| then k else 0;
      assert Written(entries, at);
      forall j: nat | Written(entries, j) ensures j == at {
      }
    }
  }

  function FirstWritten(entries: seq<Location>, from: nat): (k: nat)
    requires from <= |entries|
    ensures from <= k <= |entries|
    ensures k < |entries| ==> !entries[k].generated
    ensures forall j :: from <= j < k ==> entries[j].generated
    decreases |entries| - from
  {
    if from == |entries| || !entries[from].generated then from else FirstWritten(entries, from + 1)
  }

  ghost predicate GoodKey(m: Machine, statements: nat, key: Keyed) {
    && key.index.Some? && key.index.value < statements
    && forall e :: IsPicked(key.entries, e) ==> e.abs.Some? && m.stable(e.abs.value).Some?
  }

  ghost predicate GoodKeys(m: Machine, statements: nat, keys: seq<Keyed>) {
    forall i :: 0 <= i < |keys| ==> GoodKey(m, statements, keys[i])
  }

  // Key `j` is the last of the first `n` that locates statement `i` at all.
  ghost predicate LastKeyOf(keys: seq<Keyed>, n: nat, i: nat, j: nat) {
    && j < n <= |keys| && keys[j].index == Some(i) && keys[j].entries != []
    && forall h :: j < h < n && keys[h].index == Some(i) ==> keys[h].entries == []
  }

  // `e` is the entry a statement is shown at: the one picked of its last key with any entry.
  ghost predicate ShownFor(keys: seq<Keyed>, n: nat, i: nat, e: Location) {
    exists j: nat :: LastKeyOf(keys, n, i, j) && IsPicked(keys[j].entries, e)
  }

  ghost predicate Located(keys: seq<Keyed>, n: nat, i: nat) {
    exists j: nat :: LastKeyOf(keys, n, i, j)
  }

  function Chosen(keys: seq<Keyed>, n: nat, i: nat): Option<Location>
    requires n <= |keys|
  {
    if n == 0 then None
    else if keys[n - 1].index == Some(i) && Pick(keys[n - 1].entries).Some? then Pick(keys[n - 1].entries)
    else Chosen(keys, n - 1, i)
  }

  lemma {:induction false} LastKeyMore(keys: seq<Keyed>, n: nat, i: nat, j: nat)
    requires n < |keys|
    ensures LastKeyOf(keys, n + 1, i, j) <==>
      if keys[n].index == Some(i) && keys[n].entries != [] then j == n else LastKeyOf(keys, n, i, j)
  {
  }

  lemma {:induction false} ChosenIsShown(keys: seq<Keyed>, n: nat, i: nat)
    requires n <= |keys|
    ensures Chosen(keys, n, i).Some? <==> Located(keys, n, i)
    ensures forall e :: Chosen(keys, n, i) == Some(e) <==> ShownFor(keys, n, i, e)
  {
    if n > 0 {
      var k := n - 1;
      ChosenIsShown(keys, k, i);
      PickIs(keys[k].entries);
      forall j: nat ensures LastKeyOf(keys, n, i, j) <==>
        if keys[k].index == Some(i) && keys[k].entries != [] then j == k else LastKeyOf(keys, k, i, j)
      {
        LastKeyMore(keys, k, i, j);
      }
      forall e ensures ShownFor(keys, n, i, e) <==>
        if keys[k].index == Some(i) && keys[k].entries != [] then IsPicked(keys[k].entries, e)
        else ShownFor(keys, k, i, e)
      {
        assert LastKeyOf(keys, n, i, k) && IsPicked(keys[k].entries, e) ==> ShownFor(keys, n, i, e);
      }
    }
  }

  // The path of a key's picked entry, when it has a stable name.
  function PathOf(m: Machine, key: Keyed): Option<string> {
    match Pick(key.entries)
    case None => None
    case Some(e) => if e.abs.Some? && m.stable(e.abs.value).Some? then e.abs else None
  }

  // That is the path of the entry picked, as long as it has one with a stable name.
  lemma {:induction false} PathIs(m: Machine, key: Keyed, path: string)
    ensures PathOf(m, key) == Some(path) <==>
      m.stable(path).Some? && exists e :: IsPicked(key.entries, e) && e.abs == Some(path)
  {
    PickIs(key.entries);
  }

  // Key `i` is the first whose picked path has its stable name.
  ghost predicate FirstOfName(m: Machine, keys: seq<Keyed>, i: nat) {
    && i < |keys| && PathOf(m, keys[i]).Some?
    && forall j :: 0 <= j < i ==> !SameName(m, keys[j], keys[i])
  }

  ghost predicate SameName(m: Machine, a: Keyed, b: Keyed) {
    && PathOf(m, a).Some? && PathOf(m, b).Some?
    && m.stable(PathOf(m, a).value) == m.stable(PathOf(m, b).value)
  }

  // The path each stable name is first picked under, among the first `n` keys.
  ghost function FirstPaths(m: Machine, keys: seq<Keyed>, n: nat): seq<string>
    requires n <= |keys|
  {
    if n == 0 then []
    else if FirstOfName(m, keys, n - 1) then FirstPaths(m, keys, n - 1) + [PathOf(m, keys[n - 1]).value]
    else FirstPaths(m, keys, n - 1)
  }

  ghost function AllFirstPaths(m: Machine, keys: seq<Keyed>): seq<string> {
    FirstPaths(m, keys, |keys|)
  }

  lemma {:induction false} FirstPathsAreFirst(m: Machine, keys: seq<Keyed>, n: nat, k: nat) returns (i: nat)
    requires n <= |keys| && k < |FirstPaths(m, keys, n)|
    ensures i < n && FirstOfName(m, keys, i) && PathOf(m, keys[i]) == Some(FirstPaths(m, keys, n)[k])
  {
    if k < |FirstPaths(m, keys, n - 1)| {
      i := FirstPathsAreFirst(m, keys, n - 1, k);
    } else {
      i := n - 1;
    }
  }

  lemma {:induction false} EveryNameIsFirst(m: Machine, keys: seq<Keyed>, n: nat, j: nat) returns (k: nat)
    requires j < n <= |keys| && PathOf(m, keys[j]).Some?
    ensures k < |FirstPaths(m, keys, n)| && m.stable(FirstPaths(m, keys, n)[k]) == m.stable(PathOf(m, keys[j]).value)
    decreases n, j
  {
    if j < n - 1 {
      k := EveryNameIsFirst(m, keys, n - 1, j);
    } else if FirstOfName(m, keys, j) {
      k := |FirstPaths(m, keys, j)|;
    } else {
      var i :| 0 <= i < j && SameName(m, keys[i], keys[j]);
      k := EveryNameIsFirst(m, keys, n - 1, i);
    }
  }

  // ---- Interning ------------------------------------------------------------------------

  // The file of each index: the stable name, and the path the file was first seen under.
  ghost predicate Interned(m: Machine, fileIdx: map<string, nat>, fileAbs: seq<string>) {
    && |fileIdx| == |fileAbs|
    && (forall k: nat {:trigger PathIndexed(m, fileIdx, fileAbs, k)} :: k < |fileAbs| ==>
         PathIndexed(m, fileIdx, fileAbs, k))
    && (forall name {:trigger NameIndexed(m, fileIdx, fileAbs, name)} :: name in fileIdx ==>
         NameIndexed(m, fileIdx, fileAbs, name))
  }

  ghost predicate PathIndexed(m: Machine, fileIdx: map<string, nat>, fileAbs: seq<string>, k: nat) {
    && k < |fileAbs| && m.stable(fileAbs[k]).Some?
    && m.stable(fileAbs[k]).value in fileIdx && fileIdx[m.stable(fileAbs[k]).value] == k
  }

  ghost predicate NameIndexed(m: Machine, fileIdx: map<string, nat>, fileAbs: seq<string>, name: string) {
    name in fileIdx && fileIdx[name] < |fileAbs| && m.stable(fileAbs[fileIdx[name]]) == Some(name)
  }

  method Intern(m: Machine, fileIdx0: map<string, nat>, fileAbs0: seq<string>, abs: string)
    returns (fileIdx: map<string, nat>, fileAbs: seq<string>, fi: nat)
    requires Interned(m, fileIdx0, fileAbs0) && m.stable(abs).Some?
    ensures Interned(m, fileIdx, fileAbs) && fileAbs0 <= fileAbs
    ensures fi < |fileAbs| && m.stable(fileAbs[fi]) == m.stable(abs)
    ensures fileAbs == if m.stable(abs).value in fileIdx0 then fileAbs0 else fileAbs0 + [abs]
  {
    var name := m.stable(abs).value;
    fileIdx, fileAbs := fileIdx0, fileAbs0;
    if name !in fileIdx {
      fi := |fileIdx|;
      fileAbs := fileAbs + [abs];
      fileIdx := fileIdx[name := fi];
      InternedOneMore(m, fileIdx0, fileAbs0, abs);
    } else {
      fi := fileIdx[name];
      assert NameIndexed(m, fileIdx, fileAbs, name);
    }
  }

  lemma {:induction false} InternedOneMore(m: Machine, fileIdx: map<string, nat>, fileAbs: seq<string>, abs: string)
    requires Interned(m, fileIdx, fileAbs) && m.stable(abs).Some? && m.stable(abs).value !in fileIdx
    ensures Interned(m, fileIdx[m.stable(abs).value := |fileIdx|], fileAbs + [abs])
  {
    var idx, paths := fileIdx[m.stable(abs).value := |fileIdx|], fileAbs + [abs];
    forall k: nat | k < |paths| ensures PathIndexed(m, idx, paths, k) {
      if k < |fileAbs| {
        assert PathIndexed(m, fileIdx, fileAbs, k);
      }
    }
    forall name | name in idx ensures NameIndexed(m, idx, paths, name) {
      if name in fileIdx {
        assert NameIndexed(m, fileIdx, fileAbs, name);
      }
    }
  }

  // What the document records for a picked entry: a file of the same stable name, and its position
  // counted from 1.
  ghost predicate Recorded(m: Machine, fileAbs: seq<string>, chosen: Option<Location>, place: Option<Place>) {
    match chosen
    case None => place == None
    case Some(e) =>
      && place.Some? && e.abs.Some? && m.stable(e.abs.value).Some?
      && place.value.file < |fileAbs| && m.stable(fileAbs[place.value.file]) == m.stable(e.abs.value)
      && place.value.line == e.line + 1 && place.value.col == e.col + 1
  }

  ghost predicate AllRecorded(m: Machine, keys: seq<Keyed>, n: nat, fileAbs: seq<string>, out: seq<Option<Place>>)
    requires n <= |keys|
  {
    forall i: nat :: i < |out| ==> Recorded(m, fileAbs, Chosen(keys, n, i), out[i])
  }

  // A name is interned exactly when an earlier key's picked path has it.
  lemma {:induction false} InternedIff(m: Machine, keys: seq<Keyed>, n: nat, fileIdx: map<string, nat>,
          fileAbs: seq<string>)
    requires n < |keys| && Interned(m, fileIdx, fileAbs)
    requires fileAbs == FirstPaths(m, keys, n) && PathOf(m, keys[n]).Some?
    ensures m.stable(PathOf(m, keys[n]).value).value in fileIdx <==> !FirstOfName(m, keys, n)
  {
    var name := m.stable(PathOf(m, keys[n]).value).value;
    if name in fileIdx {
      assert NameIndexed(m, fileIdx, fileAbs, name);
      var i := FirstPathsAreFirst(m, keys, n, fileIdx[name]);
      assert SameName(m, keys[i], keys[n]);
    }
    if !FirstOfName(m, keys, n) {
      var j :| 0 <= j < n && SameName(m, keys[j], keys[n]);
      var k := EveryNameIsFirst(m, keys, n, j);
      assert PathIndexed(m, fileIdx, fileAbs, k);
    }
  }

  lemma {:induction false} RecordedMore(m: Machine, keys: seq<Keyed>, n: nat, fileAbs: seq<string>,
          out: seq<Option<Place>>, more: seq<string>, next: seq<Option<Place>>, idx: nat, place: Option<Place>)
    requires n < |keys| && AllRecorded(m, keys, n, fileAbs, out) && fileAbs <= more
    requires keys[n].index == Some(idx) && idx < |out| && Pick(keys[n].entries).Some?
    requires Recorded(m, more, Pick(keys[n].entries), place) && next == out[idx := place]
    ensures AllRecorded(m, keys, n + 1, more, next)
  {
    forall i: nat | i < |next| ensures Recorded(m, more, Chosen(keys, n + 1, i), next[i]) {
      if i != idx {
        assert Recorded(m, fileAbs, Chosen(keys, n, i), out[i]);
      }
    }
  }

  lemma {:induction false} NothingPicked(m: Machine, keys: seq<Keyed>, n: nat, fileAbs: seq<string>,
          out: seq<Option<Place>>)
    requires n < |keys| && AllRecorded(m, keys, n, fileAbs, out) && Pick(keys[n].entries) == None
    ensures AllRecorded(m, keys, n + 1, fileAbs, out) && FirstPaths(m, keys, n + 1) == FirstPaths(m, keys, n)
  {
    forall i: nat | i < |out| ensures Recorded(m, fileAbs, Chosen(keys, n + 1, i), out[i]) {
      assert Recorded(m, fileAbs, Chosen(keys, n, i), out[i]);
    }
  }

  // The state of the interning after the first `n` keys.
  ghost predicate InternedTo(m: Machine, keys: seq<Keyed>, statements: nat, n: nat, fileIdx: map<string, nat>,
          fileAbs: seq<string>, out: seq<Option<Place>>)
    requires n <= |keys|
  {
    && Interned(m, fileIdx, fileAbs) && fileAbs == FirstPaths(m, keys, n)
    && |out| == statements && AllRecorded(m, keys, n, fileAbs, out)
  }

  // What is wrong with a key, if anything.
  method CheckKey(m: Machine, key: Keyed, statements: nat) returns (failure: Option<Failure>)
    ensures failure == None <==> GoodKey(m, statements, key)
  {
    if key.index == None || key.index.value >= statements {
      return Some(BadIndex);
    }
    var pick := Pick(key.entries);
    PickIs(key.entries);
    if pick.Some? && pick.value.abs == None {
      return Some(NoFile);
    }
    if pick.Some? && m.stable(pick.value.abs.value) == None {
      return Some(Unstable);
    }
    return None;
  }

  method InternKey(m: Machine, ghost keys: seq<Keyed>, ghost n: nat, key: Keyed, ghost statements: nat,
          fileIdx0: map<string, nat>, fileAbs0: seq<string>, out0: seq<Option<Place>>)
    returns (fileIdx: map<string, nat>, fileAbs: seq<string>, out: seq<Option<Place>>)
    requires n < |keys| && keys[n] == key && GoodKey(m, statements, key)
    requires InternedTo(m, keys, statements, n, fileIdx0, fileAbs0, out0)
    ensures InternedTo(m, keys, statements, n + 1, fileIdx, fileAbs, out)
  {
    fileIdx, fileAbs, out := fileIdx0, fileAbs0, out0;
    var pick := Pick(key.entries);
    if pick == None {
      NothingPicked(m, keys, n, fileAbs, out);
      return;
    }
    var e := pick.value;
    PickIs(key.entries);
    InternedIff(m, keys, n, fileIdx, fileAbs);
    var fi: nat;
    fileIdx, fileAbs, fi := Intern(m, fileIdx, fileAbs, e.abs.value);
    var place := Some(Place(fi, e.line + 1, e.col + 1));
    out := out[key.index.value := place];
    RecordedMore(m, keys, n, fileAbs0, out0, fileAbs, out, key.index.value, place);
  }

  ghost predicate GoodUpTo(m: Machine, statements: nat, keys: seq<Keyed>, n: nat) {
    n <= |keys| && forall i :: 0 <= i < n ==> GoodKey(m, statements, keys[i])
  }

  lemma {:induction false} OneMoreGood(m: Machine, statements: nat, keys: seq<Keyed>, n: nat)
    requires n < |keys| && GoodUpTo(m, statements, keys, n)
    ensures GoodUpTo(m, statements, keys, n + 1) <==> GoodKey(m, statements, keys[n])
    ensures !GoodKey(m, statements, keys[n]) ==> !GoodKeys(m, statements, keys)
    ensures n + 1 == |keys| && GoodKey(m, statements, keys[n]) ==> GoodKeys(m, statements, keys)
  {
  }

  lemma {:induction false} NothingInterned(m: Machine, keys: seq<Keyed>, statements: nat, out: seq<Option<Place>>)
    requires |out| == statements && forall i :: 0 <= i < |out| ==> out[i] == None
    ensures InternedTo(m, keys, statements, 0, map[], [], out)
  {
  }

  method InternLocations(m: Machine, keys: seq<Keyed>, statements: nat)
    returns (res: Result<(map<string, nat>, seq<string>, seq<Option<Place>>), Failure>)
    ensures res.Ok? <==> GoodKeys(m, statements, keys)
    ensures res.Ok? ==> var (fileIdx, fileAbs, out) := res.value;
      && Interned(m, fileIdx, fileAbs) && fileAbs == AllFirstPaths(m, keys)
      && |out| == statements && AllRecorded(m, keys, |keys|, fileAbs, out)
  {
    var fileIdx: map<string, nat> := map[];
    var fileAbs: seq<string> := [];
    var out: seq<Option<Place>> := seq(statements, i => None);
    NothingInterned(m, keys, statements, out);
    for n := 0 to |keys|
      invariant InternedTo(m, keys, statements, n, fileIdx, fileAbs, out)
      invariant GoodUpTo(m, statements, keys, n)
    {
      var failure := CheckKey(m, keys[n], statements);
      OneMoreGood(m, statements, keys, n);
      if failure.Some? {
        return Err(failure.value);
      }
      fileIdx, fileAbs, out := InternKey(m, keys, n, keys[n], statements, fileIdx, fileAbs, out);
    }
    return Ok((fileIdx, fileAbs, out));
  }

  // ---- The files, in index order --------------------------------------------------------

  ghost predicate Describes(m: Machine, embed: bool, fileAbs: seq<string>, f: FileDoc) {
    && f.index < |fileAbs| && m.stable(fileAbs[f.index]) == Some(f.path)
    && m.read(fileAbs[f.index]).Some?
    && f.sha == m.sha(m.read(fileAbs[f.index]).value)
    && f.text == if embed then m.read(fileAbs[f.index]) else None
  }

  ghost predicate AllDescribe(m: Machine, embed: bool, fileAbs: seq<string>, files: seq<FileDoc>) {
    forall k :: 0 <= k < |files| ==> Describes(m, embed, fileAbs, files[k])
  }

  ghost predicate Distinct(files: seq<FileDoc>) {
    forall j, k :: 0 <= j < k < |files| ==> files[j].index != files[k].index
  }

  ghost predicate Readable(m: Machine, fileAbs: seq<string>) {
    forall k :: 0 <= k < |fileAbs| ==> m.read(fileAbs[k]).Some?
  }

  ghost predicate ListedOrLeft(fileIdx: map<string, nat>, left: set<string>, files: seq<FileDoc>) {
    && left <= fileIdx.Keys && |files| + |left| == |fileIdx|
    && forall k :: 0 <= k < |files| ==>
         files[k].path in fileIdx && files[k].path !in left && files[k].index == fileIdx[files[k].path]
  }

  ghost predicate HasText(m: Machine, fileIdx: map<string, nat>, fileAbs: seq<string>, name: string) {
    name in fileIdx && fileIdx[name] < |fileAbs| && m.read(fileAbs[fileIdx[name]]).Some?
  }

  // One document per interned file, in no particular order.
  method DescribeFiles(m: Machine, embed: bool, fileIdx: map<string, nat>, fileAbs: seq<string>)
    returns (res: Result<seq<FileDoc>, Failure>)
    requires Interned(m, fileIdx, fileAbs)
    ensures res.Ok? <==> Readable(m, fileAbs)
    ensures res.Ok? ==> |res.value| == |fileAbs| && AllDescribe(m, embed, fileAbs, res.value) && Distinct(res.value)
  {
    var files: seq<FileDoc> := [];
    var left := fileIdx.Keys;
    assert |left| == |fileIdx|;
    while left != {}
      invariant ListedOrLeft(fileIdx, left, files)
      invariant AllDescribe(m, embed, fileAbs, files) && Distinct(files)
      invariant forall name :: name in fileIdx && name !in left ==> HasText(m, fileIdx, fileAbs, name)
      decreases |left|
    {
      var name :| name in left;
      var i := fileIdx[name];
      assert NameIndexed(m, fileIdx, fileAbs, name);
      if m.read(fileAbs[i]) == None {
        return Err(Unreadable);
      }
      var text := m.read(fileAbs[i]).value;
      forall k | 0 <= k < |files| ensures files[k].index != i {
        assert m.stable(fileAbs[files[k].index]) == Some(files[k].path);
      }
      files := files + [FileDoc(i, name, m.sha(text), if embed then Some(text) else None)];
      left := left - {name};
    }
    forall k: nat | k < |fileAbs| ensures m.read(fileAbs[k]).Some? {
      assert PathIndexed(m, fileIdx, fileAbs, k);
      assert HasText(m, fileIdx, fileAbs, m.stable(fileAbs[k]).value);
    }
    return Ok(files);
  }

  ghost predicate SortedByIndex(files: seq<FileDoc>) {
    forall j, k :: 0 <= j < k < |files| ==> files[j].index < files[k].index
  }

  // Insertion of one file among files already in index order. `ok` is kept for whatever it says.
  method InsertByIndex(files: seq<FileDoc>, f: FileDoc, ghost ok: FileDoc -> bool) returns (r: seq<FileDoc>)
    requires SortedByIndex(files) && forall k :: 0 <= k < |files| ==> files[k].index != f.index
    requires ok(f) && forall k :: 0 <= k < |files| ==> ok(files[k])
    ensures SortedByIndex(r) && |r| == |files| + 1 && forall k :: 0 <= k < |r| ==> ok(r[k])
    ensures multiset(r) == multiset(files) + multiset{f}
  {
    var at := |files|;
    while at > 0 && files[at - 1].index > f.index
      invariant 0 <= at <= |files|
      invariant forall k :: at <= k < |files| ==> files[k].index > f.index
    {
      at := at - 1;
    }
    r := files[..at] + [f] + files[at..];
    InsertedInOrder(files, f, at, r);
    InsertedAll(files, f, at, r, ok);
  }

  lemma {:induction false} InsertedAll(files: seq<FileDoc>, f: FileDoc, at: nat, r: seq<FileDoc>, ok: FileDoc -> bool)
    requires at <= |files| && r == files[..at] + [f] + files[at..]
    requires ok(f) && forall k :: 0 <= k < |files| ==> ok(files[k])
    ensures multiset(r) == multiset(files) + multiset{f} && forall k :: 0 <= k < |r| ==> ok(r[k])
  {
    assert files == files[..at] + files[at..];
  }

  lemma {:induction false} InsertedInOrder(files: seq<FileDoc>, f: FileDoc, at: nat, r: seq<FileDoc>)
    requires SortedByIndex(files) && at <= |files| && r == files[..at] + [f] + files[at..]
    requires at > 0 ==> files[at - 1].index < f.index
    requires at < |files| ==> files[at].index > f.index
    ensures SortedByIndex(r)
  {
    forall j, k | 0 <= j < k < |r| ensures r[j].index < r[k].index {
      assert r[j] == if j < at then files[j] else if j == at then f else files[j - 1];
      assert r[k] == if k < at then files[k] else if k == at then f else files[k - 1];
    }
  }

  ghost predicate NoneFrom(files: seq<FileDoc>, n: nat, f: FileDoc) {
    forall j :: n <= j < |files| ==> files[j].index != f.index
  }

  method SortByIndex(files: seq<FileDoc>, ghost ok: FileDoc -> bool) returns (r: seq<FileDoc>)
    requires Distinct(files) && forall k :: 0 <= k < |files| ==> ok(files[k])
    ensures SortedByIndex(r) && |r| == |files| && forall k :: 0 <= k < |r| ==> ok(r[k])
    ensures multiset(r) == multiset(files)
  {
    r := [];
    for n := 0 to |files|
      invariant SortedByIndex(r) && |r| == n && multiset(r) == multiset(files[..n])
      invariant forall k :: 0 <= k < |r| ==> ok(r[k]) && NoneFrom(files, n, r[k])
    {
      r := InsertByIndex(r, files[n], (f: FileDoc) => ok(f) && NoneFrom(files, n + 1, f));
      assert files[..n + 1] == files[..n] + [files[n]];
    }
    assert files[..|files|] == files;
  }

  // Files in index order whose indexes are all below their number stand at their own indexes.
  lemma {:induction false} AtLeastPosition(files: seq<FileDoc>, k: nat)
    requires SortedByIndex(files) && k < |files|
    ensures files[k].index >= k
    decreases k
  {
    if k > 0 {
      AtLeastPosition(files, k - 1);
    }
  }

  lemma {:induction false} IndexIsPosition(files: seq<FileDoc>, k: nat)
    requires SortedByIndex(files) && k < |files|
    requires forall j :: 0 <= j < |files| ==> files[j].index < |files|
    ensures files[k].index == k
    decreases |files| - k
  {
    AtLeastPosition(files, k);
    if k + 1 < |files| {
      IndexIsPosition(files, k + 1);
    }
  }

  // The documents a binding holds, by position.
  ghost predicate FilesInPlace(m: Machine, embed: bool, fileAbs: seq<string>, files: seq<FileDoc>) {
    && |files| == |fileAbs|
    && forall k :: 0 <= k < |files| ==> files[k].index == k && Describes(m, embed, fileAbs, files[k])
  }

  ghost predicate Faithful(m: Machine, embed: bool, keys: seq<Keyed>, statements: nat, doc: Document) {
    && |doc.locations| == statements && AllRecorded(m, keys, |keys|, AllFirstPaths(m, keys), doc.locations)
    && FilesInPlace(m, embed, AllFirstPaths(m, keys), doc.files)
  }

  // Fails exactly on a bad key, or when the first path of some stable name cannot be read.
  method CodeLocations(m: Machine, keys: seq<Keyed>, statements: nat, embed: bool)
    returns (res: Result<Document, Failure>)
    ensures res.Ok? <==> GoodKeys(m, statements, keys) && Readable(m, AllFirstPaths(m, keys))
    ensures res.Ok? ==> Faithful(m, embed, keys, statements, res.value)
  {
    var interned := InternLocations(m, keys, statements);
    if interned.Err? {
      return Err(interned.error);
    }
    var (fileIdx, abs, out) := interned.value;
    var described := DescribeFiles(m, embed, fileIdx, abs);
    if described.Err? {
      return Err(described.error);
    }
    var files := SortByIndex(described.value, (f: FileDoc) => Describes(m, embed, abs, f));
    forall k | 0 <= k < |files| ensures files[k].index == k {
      IndexIsPosition(files, k);
    }
    return Ok(Document(out, files));
  }

  // ---- Reading the binding back ---------------------------------------------------------

  datatype Binding = Binding(locations: seq<Option<Place>>, files: seq<(string, Option<string>)>)

  // A position as it is read back: the counts are cut to 32 bits.
  function ReadPlace(p: Option<Place>): Option<Place> {
    match p
    case None => None
    case Some(at) => Some(Place(at.file, at.line % TWO_32, at.col % TWO_32))
  }

  ghost predicate HashesMatch(m: Machine, doc: Document) {
    forall k :: 0 <= k < |doc.files| ==> doc.files[k].text.Some? ==> m.sha(doc.files[k].text.value) == doc.files[k].sha
  }

  method LoadBinding(m: Machine, doc: Document) returns (res: Result<Binding, Failure>)
    ensures res.Ok? <==> HashesMatch(m, doc)
    ensures res.Ok? ==>
      && |res.value.files| == |doc.files| && |res.value.locations| == |doc.locations|
      && (forall k :: 0 <= k < |doc.files| ==> res.value.files[k] == (doc.files[k].path, doc.files[k].text))
      && (forall i :: 0 <= i < |doc.locations| ==> res.value.locations[i] == ReadPlace(doc.locations[i]))
  {
    var files := [];
    for k := 0 to |doc.files|
      invariant |files| == k && forall j :: 0 <= j < k ==> files[j] == (doc.files[j].path, doc.files[j].text)
      invariant forall j :: 0 <= j < k ==>
        doc.files[j].text.Some? ==> m.sha(doc.files[j].text.value) == doc.files[j].sha
    {
      var f := doc.files[k];
      if f.text.Some? && m.sha(f.text.value) != f.sha {
        return Err(WrongHash);
      }
      files := files + [(f.path, f.text)];
    }
    var locations := seq(|doc.locations|, i requires 0 <= i < |doc.locations| => ReadPlace(doc.locations[i]));
    return Ok(Binding(locations, files));
  }

  // ---- Spreading it over the CASM ranges ------------------------------------------------

  datatype Range = Range(start: nat, end: nat)

  predicate Holds(r: Range, pc: nat) {
    r.start <= pc < r.end
  }

  predicate Embedded(b: Binding, place: Option<Place>) {
    place.Some? && place.value.file < |b.files| && b.files[place.value.file].1.Some?
  }

  predicate CoversPc(b: Binding, ranges: seq<Range>, i: nat, pc: nat)
    requires i < |ranges| && i < |b.locations|
  {
    Embedded(b, b.locations[i]) && Holds(ranges[i], pc)
  }

  // The place of the last of the first `n` statements that covers the pc.
  function LastCover(b: Binding, ranges: seq<Range>, n: nat, pc: nat): Option<Place>
    requires n <= |ranges| && n <= |b.locations|
  {
    if n == 0 then None
    else if CoversPc(b, ranges, n - 1, pc) then b.locations[n - 1]
    else LastCover(b, ranges, n - 1, pc)
  }

  function PlaceAt(m: map<nat, Place>, pc: nat): Option<Place> {
    if pc in m then Some(m[pc]) else None
  }

  method Apply(b: Binding, ranges: seq<Range>) returns (res: Result<map<nat, Place>, Failure>)
    ensures res.Ok? <==> |b.locations| == 0 || |b.locations| == |ranges|
    ensures res.Ok? && |b.locations| == 0 ==> res.value == map[]
    ensures res.Ok? && |b.locations| != 0 ==>
      forall pc: nat :: PlaceAt(res.value, pc) == LastCover(b, ranges, |ranges|, pc)
    ensures res.Ok? && |b.locations| != 0 ==>
      forall pc: nat :: pc !in res.value <==> forall j: nat :: j < |ranges| ==> !CoversPc(b, ranges, j, pc)
  {
    var pcLocation: map<nat, Place> := map[];
    if |b.locations| != 0 {
      if |b.locations| != |ranges| {
        return Err(WrongCount);
      }
      for n := 0 to |ranges|
        invariant forall pc: nat :: PlaceAt(pcLocation, pc) == LastCover(b, ranges, n, pc)
      {
        if Embedded(b, b.locations[n]) {
          pcLocation := SpreadOver(pcLocation, ranges[n], b.locations[n].value);
        }
      }
      forall pc: nat
        ensures pc !in pcLocation <==> forall j: nat :: j < |ranges| ==> !CoversPc(b, ranges, j, pc)
      {
        NoCover(b, ranges, |ranges|, pc);
        assert PlaceAt(pcLocation, pc) == LastCover(b, ranges, |ranges|, pc);
      }
    }
    return Ok(pcLocation);
  }

  method SpreadOver(m0: map<nat, Place>, r: Range, place: Place) returns (m: map<nat, Place>)
    ensures forall pc: nat :: PlaceAt(m, pc) == if Holds(r, pc) then Some(place) else PlaceAt(m0, pc)
  {
    m := m0;
    var at := r.start;
    while at < r.end
      invariant r.start <= at && (at <= r.end || at == r.start)
      invariant forall pc: nat :: PlaceAt(m, pc) == if r.start <= pc < at then Some(place) else PlaceAt(m0, pc)
    {
      ghost var before := m;
      m := m[at := place];
      at := at + 1;
      assert forall pc: nat :: pc != at - 1 ==> PlaceAt(m, pc) == PlaceAt(before, pc);
    }
  }

  // The last embedded statement that covers a pc gives its place.
  lemma {:induction false} LastCoverIs(b: Binding, ranges: seq<Range>, n: nat, i: nat, pc: nat)
    requires i < n <= |ranges| && n <= |b.locations|
    requires CoversPc(b, ranges, i, pc) && forall j: nat :: i < j < n ==> !CoversPc(b, ranges, j, pc)
    ensures LastCover(b, ranges, n, pc) == b.locations[i]
    decreases n
  {
    if i < n - 1 {
      LastCoverIs(b, ranges, n - 1, i, pc);
    }
  }

  lemma {:induction false} NoCover(b: Binding, ranges: seq<Range>, n: nat, pc: nat)
    requires n <= |ranges| && n <= |b.locations|
    ensures LastCover(b, ranges, n, pc) == None <==> forall j: nat :: j < n ==> !CoversPc(b, ranges, j, pc)
  {
    if n > 0 {
      NoCover(b, ranges, n - 1, pc);
    }
  }

  // ---- End to end -----------------------------------------------------------------------

  ghost predicate Disjoint(ranges: seq<Range>) {
    forall i, j, pc: nat :: 0 <= i < j < |ranges| && Holds(ranges[i], pc) ==> !Holds(ranges[j], pc)
  }

  // The place a pc ends up with shows the picked entry: the file of its stable name, with the text read
  // from the path that name was first picked under, and its 1-based position, cut to 32 bits.
  ghost predicate Shows(m: Machine, keys: seq<Keyed>, b: Binding, e: Location, place: Place) {
    && e.abs.Some? && m.stable(e.abs.value).Some?
    && place.file < |b.files|
    && b.files[place.file].0 == m.stable(e.abs.value).value
    && b.files[place.file].1.Some?
    && (exists i: nat ::
          FirstUnder(m, keys, i, e.abs.value) && m.read(PathOf(m, keys[i]).value) == b.files[place.file].1)
    && place.line == (e.line + 1) % TWO_32 && place.col == (e.col + 1) % TWO_32
  }

  // Key `i` is the first whose picked path has the stable name of `abs`.
  ghost predicate FirstUnder(m: Machine, keys: seq<Keyed>, i: nat, abs: string) {
    FirstOfName(m, keys, i) && m.stable(PathOf(m, keys[i]).value) == m.stable(abs)
  }

  lemma {:induction false} FirstUnderIsUnique(m: Machine, keys: seq<Keyed>, i: nat, j: nat, abs: string)
    requires FirstUnder(m, keys, i, abs) && FirstUnder(m, keys, j, abs)
    ensures i == j
  {
    assert i < j ==> SameName(m, keys[i], keys[j]);
    assert j < i ==> SameName(m, keys[j], keys[i]);
  }

  lemma {:induction false} ReadsBack(m: Machine, keys: seq<Keyed>, statements: nat, doc: Document, b: Binding, i: nat)
    requires Faithful(m, true, keys, statements, doc) && i < statements
    requires |b.files| == |doc.files| && |b.locations| == |doc.locations|
    requires forall k :: 0 <= k < |doc.files| ==> b.files[k] == (doc.files[k].path, doc.files[k].text)
    requires b.locations[i] == ReadPlace(doc.locations[i])
    ensures ShownAs(m, keys, b, i)
  {
    var fileAbs := AllFirstPaths(m, keys);
    assert Recorded(m, fileAbs, Chosen(keys, |keys|, i), doc.locations[i]);
    match Chosen(keys, |keys|, i)
    case None =>
    case Some(e) =>
      var f := doc.locations[i].value.file;
      assert Describes(m, true, fileAbs, doc.files[f]);
      var k := FirstPathsAreFirst(m, keys, |keys|, f);
      assert FirstUnder(m, keys, k, e.abs.value);
  }

  // Statement `i` has a place exactly when an entry is picked for it, and then shows that entry.
  ghost predicate ShownAs(m: Machine, keys: seq<Keyed>, b: Binding, i: nat)
    requires i < |b.locations|
  {
    match Chosen(keys, |keys|, i)
    case None => b.locations[i] == None
    case Some(e) => Embedded(b, b.locations[i]) && Shows(m, keys, b, e, b.locations[i].value)
  }

  // Statement `i` is located and the last located one to cover the pc.
  ghost predicate LastLocated(keys: seq<Keyed>, ranges: seq<Range>, i: nat, pc: nat) {
    && i < |ranges| && Located(keys, |keys|, i) && ranges[i].start <= pc < ranges[i].end
    && forall j: nat :: i < j < |ranges| && Located(keys, |keys|, j) ==>
         !(ranges[j].start <= pc < ranges[j].end)
  }

  // With disjoint ranges, that is every located statement covering the pc.
  lemma {:induction false} DisjointIsLast(keys: seq<Keyed>, ranges: seq<Range>, i: nat, pc: nat)
    requires Disjoint(ranges) && i < |ranges|
    ensures LastLocated(keys, ranges, i, pc) <==> Located(keys, |keys|, i) && ranges[i].start <= pc < ranges[i].end
  {
    assert Holds(ranges[i], pc) <==> ranges[i].start <= pc < ranges[i].end;
    assert forall j: nat :: i < j < |ranges| && Holds(ranges[i], pc) ==> !Holds(ranges[j], pc);
  }

  // A pc of a located statement that no later located statement covers shows the entry picked for it,
  // and a pc no located statement covers has no place.
  ghost predicate BoundAt(m: Machine, keys: seq<Keyed>, ranges: seq<Range>, b: Binding, place: Option<Place>, pc: nat) {
    && (forall i: nat, e :: LastLocated(keys, ranges, i, pc) && ShownFor(keys, |keys|, i, e) ==>
          place.Some? && Shows(m, keys, b, e, place.value))
    && (place.Some? <==> exists i: nat :: LastLocated(keys, ranges, i, pc))
  }

  lemma {:induction false} SomeLast(keys: seq<Keyed>, ranges: seq<Range>, n: nat, b: Binding, pc: nat)
    requires n <= |ranges| && |ranges| == |b.locations| && LastCover(b, ranges, n, pc).Some?
    requires forall i: nat :: i < |ranges| ==> (Embedded(b, b.locations[i]) <==> Located(keys, |keys|, i))
    requires forall j: nat :: n <= j < |ranges| && Located(keys, |keys|, j) ==> !Holds(ranges[j], pc)
    ensures exists i: nat :: LastLocated(keys, ranges, i, pc)
    decreases n
  {
    if CoversPc(b, ranges, n - 1, pc) {
      assert LastLocated(keys, ranges, n - 1, pc);
    } else {
      SomeLast(keys, ranges, n - 1, b, pc);
    }
  }

  lemma {:induction false} BoundHere(m: Machine, keys: seq<Keyed>, doc: Document, b: Binding, ranges: seq<Range>,
          pc: nat)
    requires Faithful(m, true, keys, |ranges|, doc)
    requires |b.files| == |doc.files| && |b.locations| == |doc.locations|
    requires forall k :: 0 <= k < |doc.files| ==> b.files[k] == (doc.files[k].path, doc.files[k].text)
    requires forall i :: 0 <= i < |b.locations| ==> b.locations[i] == ReadPlace(doc.locations[i])
    ensures BoundAt(m, keys, ranges, b, LastCover(b, ranges, |ranges|, pc), pc)
  {
    forall i: nat | i < |ranges| ensures ShownAs(m, keys, b, i) {
      ReadsBack(m, keys, |ranges|, doc, b, i);
    }
    BoundWhereShown(m, keys, b, ranges, pc);
  }

  lemma {:induction false} BoundWhereShown(m: Machine, keys: seq<Keyed>, b: Binding, ranges: seq<Range>, pc: nat)
    requires |ranges| == |b.locations| && forall i: nat :: i < |ranges| ==> ShownAs(m, keys, b, i)
    ensures BoundAt(m, keys, ranges, b, LastCover(b, ranges, |ranges|, pc), pc)
  {
    forall i: nat | i < |ranges| ensures Embedded(b, b.locations[i]) <==> Located(keys, |keys|, i) {
      assert ShownAs(m, keys, b, i);
      ChosenIsShown(keys, |keys|, i);
    }
    forall i: nat | LastLocated(keys, ranges, i, pc)
      ensures LastCover(b, ranges, |ranges|, pc) == b.locations[i] && Embedded(b, b.locations[i])
      ensures forall e :: ShownFor(keys, |keys|, i, e) ==> Shows(m, keys, b, e, b.locations[i].value)
    {
      LastCoverIs(b, ranges, |ranges|, i, pc);
      assert ShownAs(m, keys, b, i);
      ChosenIsShown(keys, |keys|, i);
    }
    if LastCover(b, ranges, |ranges|, pc).Some? {
      SomeLast(keys, ranges, |ranges|, b, pc);
    }
  }

  // Binding a class and applying it, when the texts are embedded.
  method BindAndApply(m: Machine, keys: seq<Keyed>, ranges: seq<Range>)
    returns (res: Result<(Binding, map<nat, Place>), Failure>)
    ensures res.Ok? <==> GoodKeys(m, |ranges|, keys) && Readable(m, AllFirstPaths(m, keys))
    ensures res.Ok? ==> forall pc: nat :: BoundAt(m, keys, ranges, res.value.0, PlaceAt(res.value.1, pc), pc)
  {
    var bound := CodeLocations(m, keys, |ranges|, true);
    if bound.Err? {
      return Err(bound.error);
    }
    var doc := bound.value;
    forall k | 0 <= k < |doc.files|
      ensures doc.files[k].text.Some? ==> m.sha(doc.files[k].text.value) == doc.files[k].sha
    {
      assert Describes(m, true, AllFirstPaths(m, keys), doc.files[k]);
    }
    var loaded := LoadBinding(m, doc);
    var b := loaded.value;
    var applied := Apply(b, ranges);
    forall pc: nat ensures BoundAt(m, keys, ranges, b, PlaceAt(applied.value, pc), pc) {
      BoundHere(m, keys, doc, b, ranges, pc);
    }
    return Ok((b, applied.value));
  }
}
