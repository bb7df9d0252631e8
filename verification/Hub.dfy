/** The download cache of model files (extensions/vectorize/hf/hub.go:123-192). Any number of downloads
    share a cache directory; each is the sequence of its file-system operations, and operations of
    different downloads, crashes and removals of files interleave freely. */
module Hub {
  /** A path is the list of its segments. Paths of files are relative to the cache directory. */
  type Path = seq<string>

  type Byte = b: int | 0 <= b < 256
  type Bytes = seq<Byte>

  /** Validated names have at least one segment. */
  type Name = p: Path | p != [] witness ["m"]

  /** A file of a repository. */
  datatype Job = Job(model: Name, remote: Name)

  datatype Error =
    | NotFound
    | Http(code: int)
    | NotDownloaded
    | NoDirectory
    | NoTemporary
    | NotCopied
    | NotClosed
    | NotRenamed

  datatype Response = Unreachable | Status(code: int) | Body(content: Bytes)

  /** Where a download is. The parts that follow the temporary file's name are the complete content that
      is being sent and how much of it has been written. */
  datatype Phase =
    | Begun
    | Requesting
    | Received(body: Bytes)
    | Placed(body: Bytes)
    | Writing(tmp: Path, body: Bytes, written: nat)
    | Closing(tmp: Path, body: Bytes)
    | Renaming(tmp: Path, body: Bytes)
    | Cleaning(tmp: Path, cause: Error)
    | Returned(path: Path)
    | Failed(error: Error)
    | Crashed

  datatype Download = Download(job: Job, phase: Phase)

  /** The files and directories of the cache; used has every name that CreateTemp ever gave out. */
  datatype State = State(files: map<Path, Bytes>, dirs: set<Path>, used: set<Path>, downloads: seq<Download>)

  /** One step: of the download i, or of whoever empties the cache. */
  datatype Action =
    | Begin(job: Job)
    | Stat(i: nat, works: bool)
    | Respond(i: nat, response: Response)
    | MakeDirectories(i: nat, depth: nat, works: bool)
    | CreateTemp(i: nat, name: string)
    | FailTemp(i: nat)
    | Write(i: nat, count: nat)
    | FailCopy(i: nat)
    | EndCopy(i: nat)
    | Close(i: nat, works: bool)
    | Rename(i: nat, works: bool)
    | Remove(i: nat, works: bool)
    | Crash(i: nat)
    | Evict(path: Path)

  /** What may be requested, and the complete contents that the hub serves for it. */
  datatype World = World(requested: Job -> bool, served: (Job, Bytes) -> bool)

  const TEMP_PREFIX := ".download-"

  function Local(job: Job): Path {
    job.model + job.remote
  }

  function Directory(path: Path): Path {
    if path == [] then [] else path[..|path| - 1]
  }

  /** The first directories on the way to a path, from the cache directory on. */
  function Levels(path: Path, depth: nat): set<Path>
    requires depth <= |path|
  {
    set k | 0 <= k < depth :: path[..k]
  }

  predicate IsTemp(path: Path) {
    path != [] && TEMP_PREFIX <= path[|path| - 1]
  }

  function Put(s: State, i: nat, phase: Phase): State
    requires i < |s.downloads|
  {
    s.(downloads := s.downloads[i := s.downloads[i].(phase := phase)])
  }

  predicate Active(phase: Phase) {
    !phase.Returned? && !phase.Failed? && !phase.Crashed?
  }

  /** Whether the action can happen. MkdirAll makes every directory on the way, or stops at some depth; a file
      in the way stops it. A temporary name is new and in the directory of the final path. A rename cannot
      replace a directory. */
  predicate Possible(w: World, s: State, a: Action) {
    if a.Begin? then w.requested(a.job)
    else if a.Evict? then true
    else
      && a.i < |s.downloads|
      && var d := s.downloads[a.i];
         match a
         case Begin(_) => false
         case Evict(_) => false
         case Stat(_, _) => d.phase.Begun?
         case Respond(_, response) => d.phase.Requesting? && (response.Body? ==> w.served(d.job, response.content))
         case MakeDirectories(_, depth, works) =>
           var local := Local(d.job);
           && d.phase.Received? && depth <= |local| && (works ==> depth == |local|)
           && forall k | 0 <= k < depth :: local[..k] !in s.files
         case CreateTemp(_, name) =>
           var tmp := Directory(Local(d.job)) + [name];
           && d.phase.Placed? && TEMP_PREFIX <= name && Directory(tmp) in s.dirs
           && tmp !in s.files && tmp !in s.dirs && tmp !in s.used
         case FailTemp(_) => d.phase.Placed?
         case Write(_, count) => d.phase.Writing? && d.phase.written + count <= |d.phase.body|
         case FailCopy(_) => d.phase.Writing?
         case EndCopy(_) => d.phase.Writing? && d.phase.written == |d.phase.body|
         case Close(_, _) => d.phase.Closing?
         case Rename(_, works) => d.phase.Renaming? && (works ==> d.phase.tmp in s.files && Local(d.job) !in s.dirs)
         case Remove(_, _) => d.phase.Cleaning?
         case Crash(_) => Active(d.phase)
  }

  /** What Stat tells of the path: a non-empty file, or a directory, whose size is positive too. */
  predicate Found(s: State, path: Path) {
    (path in s.files && |s.files[path]| > 0) || path in s.dirs
  }

  /** The state after the action. Writes to a file that was removed are lost, since they go to the open file.
      Evict removes the path and everything below it. */
  function After(w: World, s: State, a: Action): State
    requires Possible(w, s, a)
  {
    match a
    case Begin(job) => s.(downloads := s.downloads + [Download(job, Begun)])
    case Evict(path) =>
      s.(files := map p | p in s.files && !(path <= p) :: s.files[p], dirs := set p | p in s.dirs && !(path <= p))
    case Stat(i, works) =>
      var local := Local(s.downloads[i].job);
      Put(s, i, if works && Found(s, local) then Returned(local) else Requesting)
    case Respond(i, response) =>
      Put(s, i, match response
                case Unreachable => Failed(NotDownloaded)
                case Status(code) => Failed(if code == 404 then NotFound else Http(code))
                case Body(content) => Received(content))
    case MakeDirectories(i, depth, works) =>
      var d := s.downloads[i];
      Put(s.(dirs := s.dirs + Levels(Local(d.job), depth)), i,
          if works then Placed(d.phase.body) else Failed(NoDirectory))
    case CreateTemp(i, name) =>
      var tmp := Directory(Local(s.downloads[i].job)) + [name];
      Put(s.(files := s.files[tmp := []], used := s.used + {tmp}), i, Writing(tmp, s.downloads[i].phase.body, 0))
    case FailTemp(i) => Put(s, i, Failed(NoTemporary))
    case Write(i, count) =>
      var p := s.downloads[i].phase;
      var chunk := p.body[p.written..p.written + count];
      Put(if p.tmp in s.files then s.(files := s.files[p.tmp := s.files[p.tmp] + chunk]) else s,
          i, Writing(p.tmp, p.body, p.written + count))
    case FailCopy(i) => Put(s, i, Cleaning(s.downloads[i].phase.tmp, NotCopied))
    case EndCopy(i) => Put(s, i, Closing(s.downloads[i].phase.tmp, s.downloads[i].phase.body))
    case Close(i, works) =>
      var p := s.downloads[i].phase;
      Put(s, i, if works then Renaming(p.tmp, p.body) else Cleaning(p.tmp, NotClosed))
    case Rename(i, works) =>
      var p := s.downloads[i].phase;
      var local := Local(s.downloads[i].job);
      if works then Put(s.(files := (s.files - {p.tmp})[local := s.files[p.tmp]]), i, Returned(local))
      else Put(s, i, Cleaning(p.tmp, NotRenamed))
    case Remove(i, works) =>
      var p := s.downloads[i].phase;
      Put(if works then s.(files := s.files - {p.tmp}) else s, i, Failed(p.cause))
    case Crash(i) => Put(s, i, Crashed)
  }

  /** A run that can happen from a state, and where it leads. */
  predicate Runs(w: World, s: State, actions: seq<Action>)
    decreases |actions|
  {
    actions == [] || (Possible(w, s, actions[0]) && Runs(w, After(w, s, actions[0]), actions[1..]))
  }

  function Final(w: World, s: State, actions: seq<Action>): State
    requires Runs(w, s, actions)
    decreases |actions|
  {
    if actions == [] then s else Final(w, After(w, s, actions[0]), actions[1..])
  }

  /** The bytes are the complete content of a requested file that is cached at the path. */
  ghost predicate Complete(w: World, path: Path, content: Bytes) {
    exists job :: w.requested(job) && Local(job) == path && w.served(job, content)
  }

  ghost predicate FilesComplete(w: World, files: map<Path, Bytes>) {
    forall path | path in files && !IsTemp(path) && files[path] != [] :: Complete(w, path, files[path])
  }

  predicate Owns(phase: Phase) {
    phase.Writing? || phase.Closing? || phase.Renaming?
  }

  /** What a download knows: its content is complete and its temporary file, if still there, has what was written. */
  ghost predicate Knows(w: World, files: map<Path, Bytes>, used: set<Path>, d: Download) {
    && w.requested(d.job)
    && (d.phase.Received? || d.phase.Placed? ==> w.served(d.job, d.phase.body))
    && (Owns(d.phase) ==>
          && w.served(d.job, d.phase.body)
          && d.phase.tmp in used && IsTemp(d.phase.tmp)
          && (d.phase.Writing? ==> d.phase.written <= |d.phase.body|)
          && (d.phase.tmp in files ==> files[d.phase.tmp] == Written(d.phase)))
    && (d.phase.Cleaning? ==> d.phase.tmp in used && IsTemp(d.phase.tmp))
  }

  function Written(phase: Phase): Bytes
    requires Owns(phase) && (phase.Writing? ==> phase.written <= |phase.body|)
  {
    if phase.Writing? then phase.body[..phase.written] else phase.body
  }

  ghost predicate AllKnow(w: World, s: State) {
    forall i | 0 <= i < |s.downloads| :: Knows(w, s.files, s.used, s.downloads[i])
  }

  predicate HasTemp(phase: Phase) {
    Owns(phase) || phase.Cleaning?
  }

  /** No two downloads have the same temporary file. */
  predicate Apart(s: State) {
    forall i, j | 0 <= i < j < |s.downloads| && HasTemp(s.downloads[i].phase) && HasTemp(s.downloads[j].phase) ::
      s.downloads[i].phase.tmp != s.downloads[j].phase.tmp
  }

  /** Every directory is on the way to a requested file. */
  ghost predicate DirsKnown(w: World, dirs: set<Path>) {
    forall dir | dir in dirs :: exists job :: w.requested(job) && dir < Local(job)
  }

  ghost predicate Inv(w: World, s: State) {
    FilesComplete(w, s.files) && DirsKnown(w, s.dirs) && AllKnow(w, s) && Apart(s)
  }

  /** No requested path looks like a temporary file. */
  ghost predicate NoTempRequested(w: World) {
    forall job | w.requested(job) :: !IsTemp(Local(job))
  }

  lemma FilesStayComplete(w: World, s: State, a: Action)
    requires NoTempRequested(w) && Inv(w, s) && Possible(w, s, a)
    ensures FilesComplete(w, After(w, s, a).files)
  {
    hide Apart, DirsKnown, Local, IsTemp;
    if a.Rename? && a.works {
      var d := s.downloads[a.i];
      assert Knows(w, s.files, s.used, d);
      assert Complete(w, Local(d.job), s.files[d.phase.tmp]);
    } else if a.Write? {
      assert Knows(w, s.files, s.used, s.downloads[a.i]);
    }
  }

  lemma {:induction false} DirsStayKnown(w: World, s: State, a: Action)
    requires Inv(w, s) && Possible(w, s, a)
    ensures DirsKnown(w, After(w, s, a).dirs)
  {
    hide FilesComplete, Apart, Local, IsTemp, Written;
    if a.MakeDirectories? {
      var job := s.downloads[a.i].job;
      assert Knows(w, s.files, s.used, s.downloads[a.i]);
      forall dir | dir in Levels(Local(job), a.depth) ensures w.requested(job) && dir < Local(job) {
      }
    }
  }

  lemma {:induction false} StaysApart(w: World, s: State, a: Action)
    requires Inv(w, s) && Possible(w, s, a)
    ensures Apart(After(w, s, a))
  {
    hide FilesComplete, DirsKnown, Local, IsTemp, Written;
    if a.CreateTemp? {
      forall j | 0 <= j < |s.downloads| && HasTemp(s.downloads[j].phase)
        ensures s.downloads[j].phase.tmp in s.used
      {
        assert Knows(w, s.files, s.used, s.downloads[j]);
      }
    }
  }

  /** The download that acts keeps what it knows. */
  lemma {:induction false} ActorKnows(w: World, s: State, a: Action)
    requires Inv(w, s) && Possible(w, s, a) && !a.Begin? && !a.Evict?
    ensures var t := After(w, s, a); Knows(w, t.files, t.used, t.downloads[a.i])
  {
    hide FilesComplete, DirsKnown, Local, Apart;
    var d := s.downloads[a.i];
    assert Knows(w, s.files, s.used, d);
    if a.Write? {
      var p := d.phase;
      assert p.body[..p.written] + p.body[p.written..p.written + a.count] == p.body[..p.written + a.count];
    }
    if a.EndCopy? {
      assert d.phase.body[..d.phase.written] == d.phase.body;
    }
  }

  /** Every other download keeps what it knows. */
  lemma OthersKnow(w: World, s: State, a: Action, j: nat)
    requires NoTempRequested(w) && Inv(w, s) && Possible(w, s, a) && !a.Begin? && !a.Evict?
    requires j < |s.downloads| && j != a.i
    ensures var t := After(w, s, a); Knows(w, t.files, t.used, s.downloads[j])
  {
    hide FilesComplete, DirsKnown, Local, IsTemp, Written;
    assert Knows(w, s.files, s.used, s.downloads[j]);
    assert Knows(w, s.files, s.used, s.downloads[a.i]);
    assert !IsTemp(Local(s.downloads[a.i].job));
  }

  lemma Preserved(w: World, s: State, a: Action)
    requires NoTempRequested(w) && Inv(w, s) && Possible(w, s, a)
    ensures Inv(w, After(w, s, a))
  {
    hide FilesComplete, DirsKnown, Apart, Knows;
    FilesStayComplete(w, s, a);
    StaysApart(w, s, a);
    DirsStayKnown(w, s, a);
    var t := After(w, s, a);
    forall j | 0 <= j < |t.downloads| ensures Knows(w, t.files, t.used, t.downloads[j]) {
      if a.Begin? || a.Evict? {
        BystandersKnow(w, s, a, j);
      } else if j == a.i {
        ActorKnows(w, s, a);
      } else {
        OthersKnow(w, s, a, j);
      }
    }
  }

  lemma BystandersKnow(w: World, s: State, a: Action, j: nat)
    requires Inv(w, s) && Possible(w, s, a) && (a.Begin? || a.Evict?) && j < |After(w, s, a).downloads|
    ensures var t := After(w, s, a); Knows(w, t.files, t.used, t.downloads[j])
  {
    if j < |s.downloads| {
      assert Knows(w, s.files, s.used, s.downloads[j]);
    }
  }

  const EMPTY_CACHE := State(map[], {}, {}, [])

  lemma {:induction false} RunPreserves(w: World, s: State, actions: seq<Action>)
    requires NoTempRequested(w) && Inv(w, s) && Runs(w, s, actions)
    ensures Inv(w, Final(w, s, actions))
    decreases |actions|
  {
    hide Inv, Possible, After, NoTempRequested;
    if actions == [] {
    } else {
      Preserved(w, s, actions[0]);
      RunPreserves(w, After(w, s, actions[0]), actions[1..]);
    }
  }

  /** In every interleaving, with crashes, failures, short bodies and removals anywhere, a non-empty file
      at a final path has a complete content. */
  lemma VisibleIsComplete(w: World, actions: seq<Action>, path: Path)
    requires NoTempRequested(w) && Runs(w, EMPTY_CACHE, actions)
    requires var files := Final(w, EMPTY_CACHE, actions).files; path in files && !IsTemp(path) && files[path] != []
    ensures Complete(w, path, Final(w, EMPTY_CACHE, actions).files[path])
  {
    RunPreserves(w, EMPTY_CACHE, actions);
  }

  /** After a run from the empty cache, the action makes the download return the path. */
  predicate Returns(w: World, actions: seq<Action>, a: Action, i: nat, path: Path) {
    && Runs(w, EMPTY_CACHE, actions)
    && var s := Final(w, EMPTY_CACHE, actions);
       && Possible(w, s, a) && i < |s.downloads| && Active(s.downloads[i].phase)
       && After(w, s, a).downloads[i].phase == Returned(path)
  }

  /** The download that returns, and the files when it does. */
  function Returner(w: World, actions: seq<Action>, a: Action, i: nat, path: Path): Job
    requires Returns(w, actions, a, i, path)
  {
    Final(w, EMPTY_CACHE, actions).downloads[i].job
  }

  function FilesThen(w: World, actions: seq<Action>, a: Action, i: nat, path: Path): map<Path, Bytes>
    requires Returns(w, actions, a, i, path)
  {
    After(w, Final(w, EMPTY_CACHE, actions), a).files
  }

  /** No requested path is a directory on the way to another. */
  ghost predicate NoneNested(w: World) {
    forall a, b | w.requested(a) && w.requested(b) :: !(Local(a) < Local(b))
  }

  /** A download that returns a path returns the path of its own file. If no requested path is on the way to
      another, the file is there with a complete content; if it was found rather than downloaded it is not
      empty, and if it was downloaded its content was served for this download. */
  lemma {:induction false} ReturnsComplete(w: World, actions: seq<Action>, a: Action, i: nat, path: Path)
    requires NoTempRequested(w) && Returns(w, actions, a, i, path)
    ensures path == Local(Returner(w, actions, a, i, path))
    ensures NoneNested(w) ==>
              var files := FilesThen(w, actions, a, i, path);
              && path in files && Complete(w, path, files[path])
              && (a.Stat? ==> files[path] != [])
              && (a.Rename? ==> w.served(Returner(w, actions, a, i, path), files[path]))
  {
    hide Runs, Final, Local;
    RunPreserves(w, EMPTY_CACHE, actions);
    ReturningStep(w, Final(w, EMPTY_CACHE, actions), a, i, path);
  }

  lemma {:induction false} ReturningStep(w: World, s: State, a: Action, i: nat, path: Path)
    requires NoTempRequested(w) && Inv(w, s) && Possible(w, s, a)
    requires i < |s.downloads| && Active(s.downloads[i].phase) && After(w, s, a).downloads[i].phase == Returned(path)
    ensures path == Local(s.downloads[i].job)
    ensures NoneNested(w) ==>
              var job, files := s.downloads[i].job, After(w, s, a).files;
              && path in files && Complete(w, path, files[path])
              && (a.Stat? ==> files[path] != [])
              && (a.Rename? ==> w.served(job, files[path]))
  {
    hide Local, IsTemp;
    var d := s.downloads[i];
    assert Knows(w, s.files, s.used, d);
    assert (a.Stat? || a.Rename?) && a.i == i;
    if NoneNested(w) {
      assert path !in s.dirs;
    }
  }

  /** Requested files with one local path are the same file. */
  ghost predicate LocalsDistinct(w: World) {
    forall a, b | w.requested(a) && w.requested(b) && Local(a) == Local(b) :: a == b
  }

  /** Then a non-empty file at the path of a requested file has a content that was served for that very file. */
  lemma VisibleIsServed(w: World, actions: seq<Action>, job: Job)
    requires NoTempRequested(w) && LocalsDistinct(w) && Runs(w, EMPTY_CACHE, actions) && w.requested(job)
    requires var files := Final(w, EMPTY_CACHE, actions).files; Local(job) in files && files[Local(job)] != []
    ensures w.served(job, Final(w, EMPTY_CACHE, actions).files[Local(job)])
  {
    VisibleIsComplete(w, actions, Local(job));
  }

  /** Two different files share a local path exactly when one model's name goes on with the first
      segments of the other's file name. */
  lemma SharedLocalIff(a: Job, b: Job)
    ensures Local(a) == Local(b) && a != b <==>
            exists mid: Path :: mid != [] && ((b.model == a.model + mid && a.remote == mid + b.remote)
                                              || (a.model == b.model + mid && b.remote == mid + a.remote))
  {
    if Local(a) == Local(b) && a != b {
      if |a.model| <= |b.model| {
        SharedLocalSplit(a, b);
      } else {
        SharedLocalSplit(b, a);
      }
    }
    if mid: Path :| mid != [] && ((b.model == a.model + mid && a.remote == mid + b.remote)
                                  || (a.model == b.model + mid && b.remote == mid + a.remote)) {
      assert a.model + (mid + b.remote) == (a.model + mid) + b.remote;
      assert b.model + (mid + a.remote) == (b.model + mid) + a.remote;
    }
  }

  lemma SharedLocalSplit(a: Job, b: Job)
    requires Local(a) == Local(b) && a != b && |a.model| <= |b.model|
    ensures exists mid: Path :: mid != [] && b.model == a.model + mid && a.remote == mid + b.remote
  {
    var n := |a.model|;
    var mid := b.model[n..];
    assert a.model == Local(a)[..n] && b.model[..n] == Local(b)[..n];
    assert b.model == a.model + mid;
    assert a.remote == Local(a)[n..] && Local(b)[n..] == mid + b.remote;
    assert mid == [] ==> b.remote == a.remote;
  }

  /** With model names of one length, such as owner and name, no two files share a path. */
  lemma SameDepthDistinct(w: World, depth: nat)
    requires forall job | w.requested(job) :: |job.model| == depth
    ensures LocalsDistinct(w)
  {
    forall a, b | w.requested(a) && w.requested(b) && Local(a) == Local(b) ensures a == b {
      assert a.model == Local(a)[..depth] && b.model == Local(b)[..depth];
      assert a.remote == Local(a)[depth..] && b.remote == Local(b)[depth..];
    }
  }

  lemma Prepend(w: World, s: State, a: Action, rest: seq<Action>)
    requires Possible(w, s, a) && Runs(w, After(w, s, a), rest)
    ensures Runs(w, s, [a] + rest) && Final(w, s, [a] + rest) == Final(w, After(w, s, a), rest)
  {
    assert ([a] + rest)[1..] == rest;
  }

  lemma {:induction false} Append(w: World, s: State, first: seq<Action>, rest: seq<Action>)
    requires Runs(w, s, first) && Runs(w, Final(w, s, first), rest)
    ensures Runs(w, s, first + rest) && Final(w, s, first + rest) == Final(w, Final(w, s, first), rest)
    decreases |first|
  {
    hide Possible, After;
    if first == [] {
      assert first + rest == rest;
    } else {
      Append(w, After(w, s, first[0]), first[1..], rest);
      Prepend(w, s, first[0], first[1..] + rest);
      assert [first[0]] + (first[1..] + rest) == first + rest;
    }
  }

  /** From the directory to the final path, when nothing fails and nothing else happens: only the final path
      changes and the temporary file is gone. */
  lemma {:induction false} Deliver(w: World, s: State, i: nat, name: string) returns (run: seq<Action>)
    requires i < |s.downloads| && s.downloads[i].phase.Placed? && Possible(w, s, CreateTemp(i, name))
    requires Directory(Local(s.downloads[i].job)) + [name] != Local(s.downloads[i].job)
    requires Local(s.downloads[i].job) !in s.dirs
    ensures Runs(w, s, run)
    ensures var local := Local(s.downloads[i].job);
            Final(w, s, run) == State(s.files[local := s.downloads[i].phase.body], s.dirs,
                                      s.used + {Directory(local) + [name]},
                                      s.downloads[i := Download(s.downloads[i].job, Returned(local))])
  {
    hide Local, Directory;
    var job, body := s.downloads[i].job, s.downloads[i].phase.body;
    var tmp := Directory(Local(job)) + [name];
    var used := s.used + {tmp};
    var writing := State(s.files[tmp := []], s.dirs, used, s.downloads[i := Download(job, Writing(tmp, body, 0))]);
    var written := State(s.files[tmp := body], s.dirs, used,
                         s.downloads[i := Download(job, Writing(tmp, body, |body|))]);
    assert After(w, s, CreateTemp(i, name)) == writing;
    assert After(w, writing, Write(i, |body|)) == written by {
      assert [] + body[0..|body|] == body;
      assert s.files[tmp := []][tmp := body] == s.files[tmp := body];
    }
    run := Publish(w, written, i);
    Prepend(w, writing, Write(i, |body|), run);
    Prepend(w, s, CreateTemp(i, name), [Write(i, |body|)] + run);
    run := [CreateTemp(i, name)] + ([Write(i, |body|)] + run);
    assert s.files[tmp := body] - {tmp} == s.files;
  }

  /** From the last byte to the final path. */
  lemma Publish(w: World, s: State, i: nat) returns (run: seq<Action>)
    requires i < |s.downloads| && Possible(w, s, EndCopy(i)) && s.downloads[i].phase.tmp in s.files
    requires Local(s.downloads[i].job) !in s.dirs
    ensures Runs(w, s, run)
    ensures var d := s.downloads[i];
            Final(w, s, run) == State((s.files - {d.phase.tmp})[Local(d.job) := s.files[d.phase.tmp]], s.dirs, s.used,
                                      s.downloads[i := Download(d.job, Returned(Local(d.job)))])
  {
    hide Local, Directory;
    var d := s.downloads[i];
    var closing := s.(downloads := s.downloads[i := Download(d.job, Closing(d.phase.tmp, d.phase.body))]);
    var renaming := s.(downloads := s.downloads[i := Download(d.job, Renaming(d.phase.tmp, d.phase.body))]);
    assert After(w, s, EndCopy(i)) == closing;
    assert After(w, closing, Close(i, true)) == renaming;
    Prepend(w, renaming, Rename(i, true), []);
    Prepend(w, closing, Close(i, true), [Rename(i, true)] + []);
    run := [EndCopy(i)] + ([Close(i, true)] + ([Rename(i, true)] + []));
    Prepend(w, s, EndCopy(i), [Close(i, true)] + ([Rename(i, true)] + []));
  }

  /** A download up to its directory, in a cache that has no or an empty file for it and none in its way. */
  lemma {:induction false} Place(w: World, s: State, job: Job, body: Bytes) returns (run: seq<Action>)
    requires w.requested(job) && w.served(job, body)
    requires !Found(s, Local(job)) && forall p | p in s.files :: !(p < Local(job))
    ensures Runs(w, s, run)
    ensures Final(w, s, run) == s.(dirs := s.dirs + Levels(Local(job), |Local(job)|),
                                   downloads := s.downloads + [Download(job, Placed(body))])
  {
    hide Local, Directory, Found, Levels;
    var i := |s.downloads|;
    var local := Local(job);
    var begun := s.(downloads := s.downloads + [Download(job, Begun)]);
    var requesting := s.(downloads := s.downloads + [Download(job, Requesting)]);
    var received := s.(downloads := s.downloads + [Download(job, Received(body))]);
    var make := MakeDirectories(i, |local|, true);
    assert After(w, s, Begin(job)) == begun;
    SameFound(s, begun, local);
    assert After(w, begun, Stat(i, true)) == requesting;
    assert After(w, requesting, Respond(i, Body(body))) == received;
    forall k | 0 <= k < |local| ensures local[..k] !in s.files {
      assert local[..k] < local;
    }
    Prepend(w, received, make, []);
    Prepend(w, requesting, Respond(i, Body(body)), [make] + []);
    Prepend(w, begun, Stat(i, true), [Respond(i, Body(body))] + ([make] + []));
    Prepend(w, s, Begin(job), [Stat(i, true)] + ([Respond(i, Body(body))] + ([make] + [])));
    run := [Begin(job)] + ([Stat(i, true)] + ([Respond(i, Body(body))] + ([make] + [])));
  }

  lemma {:induction false} SameFound(s: State, t: State, path: Path)
    requires s.files == t.files && s.dirs == t.dirs
    ensures Found(s, path) == Found(t, path)
  {
  }

  /** The directories on the way to a path are those above it. */
  lemma {:induction false} LevelsAbove(path: Path)
    ensures forall p :: p in Levels(path, |path|) <==> p < path
    ensures path !in Levels(path, |path|)
    ensures path != [] ==> Directory(path) in Levels(path, |path|)
  {
    forall p | p < path ensures p in Levels(path, |path|) {
      assert path[..|p|] == p;
    }
    if path != [] {
      assert path[..|path| - 1] == Directory(path);
    }
  }

  /** A whole download in a cache that has no or an empty file for it and none in its way. */
  lemma {:induction false} Fetch(w: World, s: State, job: Job, name: string, body: Bytes) returns (run: seq<Action>)
    requires w.requested(job) && w.served(job, body)
    requires !Found(s, Local(job)) && forall p | p in s.files :: !(p < Local(job))
    requires var tmp := Directory(Local(job)) + [name];
             TEMP_PREFIX <= name && tmp !in s.files && tmp !in s.dirs && tmp !in s.used && tmp != Local(job)
    ensures Runs(w, s, run)
    ensures Final(w, s, run) == State(s.files[Local(job) := body], s.dirs + Levels(Local(job), |Local(job)|),
                                      s.used + {Directory(Local(job)) + [name]},
                                      s.downloads + [Download(job, Returned(Local(job)))])
  {
    var i, local := |s.downloads|, Local(job);
    run := Place(w, s, job, body);
    var placed := Final(w, s, run);
    LevelsAbove(local);
    TempBeside(local, name);
    assert local !in placed.dirs;
    hide Local, Directory, Levels, Found, Runs, Final;
    assert Possible(w, placed, CreateTemp(i, name));
    var rest := Deliver(w, placed, i, name);
    Append(w, s, run, rest);
    run := run + rest;
  }

  /** A name beside a path is in the same directory, and not above the path. */
  lemma {:induction false} TempBeside(path: Path, name: string)
    requires path != []
    ensures var tmp := Directory(path) + [name]; Directory(tmp) == Directory(path) && !(tmp < path)
  {
  }

  /** A download that fails after creating its temporary file leaves the files as they were. */
  lemma FailureLeavesNothing(w: World, s: State, i: nat, name: string, count: nat) returns (run: seq<Action>)
    requires i < |s.downloads| && s.downloads[i].phase.Placed? && Possible(w, s, CreateTemp(i, name))
    requires count <= |s.downloads[i].phase.body|
    ensures run == [CreateTemp(i, name)] + ([Write(i, count)] + ([FailCopy(i)] + ([Remove(i, true)] + [])))
    ensures Runs(w, s, run) && Final(w, s, run).files == s.files
    ensures Final(w, s, run).downloads == s.downloads[i := Download(s.downloads[i].job, Failed(NotCopied))]
  {
    hide Local, Directory;
    var job, body := s.downloads[i].job, s.downloads[i].phase.body;
    var tmp := Directory(Local(job)) + [name];
    var s1 := After(w, s, CreateTemp(i, name));
    var s2 := After(w, s1, Write(i, count));
    var s3 := After(w, s2, FailCopy(i));
    Prepend(w, s3, Remove(i, true), []);
    Prepend(w, s2, FailCopy(i), [Remove(i, true)] + []);
    Prepend(w, s1, Write(i, count), [FailCopy(i)] + ([Remove(i, true)] + []));
    Prepend(w, s, CreateTemp(i, name), [Write(i, count)] + ([FailCopy(i)] + ([Remove(i, true)] + [])));
    run := [CreateTemp(i, name)] + ([Write(i, count)] + ([FailCopy(i)] + ([Remove(i, true)] + [])));
    assert s3.files - {tmp} == s.files;
  }

  /** The same when closing the temporary file or renaming it fails. */
  lemma {:induction false} LateFailureLeavesNothing(w: World, s: State, i: nat, closes: bool) returns (run: seq<Action>)
    requires i < |s.downloads| && s.downloads[i].phase.Writing? && Possible(w, s, EndCopy(i))
    ensures Runs(w, s, run) && Final(w, s, run).files == s.files - {s.downloads[i].phase.tmp}
    ensures Final(w, s, run).downloads
         == s.downloads[i := Download(s.downloads[i].job, Failed(if closes then NotRenamed else NotClosed))]
  {
    hide Local, Directory;
    var s1 := After(w, s, EndCopy(i));
    var s2 := After(w, s1, Close(i, closes));
    if closes {
      var s3 := After(w, s2, Rename(i, false));
      Prepend(w, s3, Remove(i, true), []);
      Prepend(w, s2, Rename(i, false), [Remove(i, true)] + []);
      run := [Rename(i, false)] + ([Remove(i, true)] + []);
    } else {
      Prepend(w, s2, Remove(i, true), []);
      run := [Remove(i, true)] + [];
    }
    Prepend(w, s1, Close(i, closes), run);
    Prepend(w, s, EndCopy(i), [Close(i, closes)] + run);
    run := [EndCopy(i)] + ([Close(i, closes)] + run);
  }

  /** A download that the hub refuses fails, as not found for a 404, and changes no file or directory. */
  lemma {:induction false} RefusedLeavesNothing(w: World, s: State, job: Job, response: Response)
    returns (run: seq<Action>)
    requires w.requested(job) && !Found(s, Local(job)) && !response.Body?
    ensures Runs(w, s, run)
    ensures var error := if response == Status(404) then NotFound
                         else if response.Status? then Http(response.code)
                         else NotDownloaded;
            Final(w, s, run) == s.(downloads := s.downloads + [Download(job, Failed(error))])
  {
    hide Local, Found;
    var i := |s.downloads|;
    var begun := s.(downloads := s.downloads + [Download(job, Begun)]);
    var requesting := s.(downloads := s.downloads + [Download(job, Requesting)]);
    assert After(w, s, Begin(job)) == begun;
    SameFound(s, begun, Local(job));
    assert After(w, begun, Stat(i, true)) == requesting;
    Prepend(w, requesting, Respond(i, response), []);
    Prepend(w, begun, Stat(i, true), [Respond(i, response)] + []);
    Prepend(w, s, Begin(job), [Stat(i, true)] + ([Respond(i, response)] + []));
    run := [Begin(job)] + ([Stat(i, true)] + ([Respond(i, response)] + []));
  }

  /** A step of a download changes its own temporary file alone, but for a rename that works, which also changes
      its final path. */
  lemma {:induction false} StepFrame(w: World, s: State, a: Action, path: Path)
    requires Possible(w, s, a) && !a.Begin? && !a.Evict?
    requires HasTemp(s.downloads[a.i].phase) ==> path != s.downloads[a.i].phase.tmp
    requires a.CreateTemp? ==> path != Directory(Local(s.downloads[a.i].job)) + [a.name]
    requires a.Rename? && a.works ==> path != Local(s.downloads[a.i].job)
    ensures path in After(w, s, a).files <==> path in s.files
    ensures path in s.files ==> After(w, s, a).files[path] == s.files[path]
  {
    hide Local, Directory;
  }

  /** In every run, a non-empty file at the path of a requested file has a content that was served for that file. */
  ghost predicate AlwaysServed(w: World) {
    forall actions, job | Runs(w, EMPTY_CACHE, actions) && w.requested(job) && HoldsFile(w, actions, job) ::
      w.served(job, Final(w, EMPTY_CACHE, actions).files[Local(job)])
  }

  predicate HoldsFile(w: World, actions: seq<Action>, job: Job)
    requires Runs(w, EMPTY_CACHE, actions)
  {
    var files := Final(w, EMPTY_CACHE, actions).files;
    Local(job) in files && files[Local(job)] != []
  }

  /** Requested files that share a local path are served with the same contents. */
  ghost predicate SharedAgree(w: World) {
    forall a, b, content | && w.requested(a) && w.requested(b) && Local(a) == Local(b)
                           && w.served(a, content) && content != [] ::
      w.served(b, content)
  }

  /** The cache holds each file's own content exactly when files that share a path have the same
      contents: the local path alone does not tell which model and file name it came from. */
  lemma AlwaysServedIff(w: World)
    requires NoTempRequested(w)
    ensures AlwaysServed(w) <==> SharedAgree(w)
  {
    hide Runs, Final, Local, IsTemp;
    if SharedAgree(w) {
      forall actions, job | Runs(w, EMPTY_CACHE, actions) && w.requested(job) && HoldsFile(w, actions, job)
        ensures w.served(job, Final(w, EMPTY_CACHE, actions).files[Local(job)])
      {
        VisibleIsComplete(w, actions, Local(job));
      }
    }
    if AlwaysServed(w) {
      forall a, b, content | && w.requested(a) && w.requested(b) && Local(a) == Local(b)
                             && w.served(a, content) && content != []
        ensures w.served(b, content)
      {
        FreshTemp(Local(a));
        var run := Fetch(w, EMPTY_CACHE, a, TEMP_PREFIX, content);
        assert HoldsFile(w, run, b);
      }
    }
  }

  /** Whatever the hub serves, the cache holds each file's own content exactly when no two requested
      files have the same local path. */
  lemma {:induction false} OwnContentIff(requested: Job -> bool)
    requires forall job | requested(job) :: !IsTemp(Local(job))
    ensures (forall served: (Job, Bytes) -> bool :: AlwaysServed(World(requested, served)))
            <==> forall a, b | requested(a) && requested(b) && Local(a) == Local(b) :: a == b
  {
    hide AlwaysServed, IsTemp, Local;
    if forall a, b | requested(a) && requested(b) && Local(a) == Local(b) :: a == b {
      forall served: (Job, Bytes) -> bool ensures AlwaysServed(World(requested, served)) {
        AlwaysServedIff(World(requested, served));
      }
    }
    if a, b :| requested(a) && requested(b) && Local(a) == Local(b) && a != b {
      var w := World(requested, (job: Job, content: Bytes) => job == a);
      AlwaysServedIff(w);
      assert w.served(a, [0]) && !w.served(b, [0]);
    }
  }

  lemma FreshTemp(local: Path)
    requires !IsTemp(local)
    ensures Directory(local) + [TEMP_PREFIX] != local
  {
    assert IsTemp(Directory(local) + [TEMP_PREFIX]);
  }

  /** A first download that has written a part. */
  lemma {:induction false} WritePart(w: World, b: Job, name: string, body: Bytes, count: nat) returns (run: seq<Action>)
    requires w.requested(b) && w.served(b, body) && count <= |body| && TEMP_PREFIX <= name
    ensures var local := Local(b);
            var tmp := Directory(local) + [name];
            && Runs(w, EMPTY_CACHE, run)
            && Final(w, EMPTY_CACHE, run)
               == State(map[tmp := body[..count]], Levels(local, |local|), {tmp},
                        [Download(b, Writing(tmp, body, count))])
  {
    var local := Local(b);
    var tmp := Directory(local) + [name];
    run := Place(w, EMPTY_CACHE, b, body);
    var placed := Final(w, EMPTY_CACHE, run);
    LevelsAbove(local);
    TempBeside(local, name);
    hide Local, Directory, Levels, Found, Runs, Final;
    var writing := State(map[tmp := []], placed.dirs, {tmp}, [Download(b, Writing(tmp, body, 0))]);
    assert After(w, placed, CreateTemp(0, name)) == writing;
    PartWritten(w, writing, b, tmp, body, count);
    hide Possible, After;
    var rest := WriteFirst(w, placed, writing, name, count);
    Append(w, EMPTY_CACHE, run, rest);
    run := run + rest;
  }

  lemma PartWritten(w: World, s: State, job: Job, tmp: Path, body: Bytes, count: nat)
    requires count <= |body| && s.files == map[tmp := []] && s.downloads == [Download(job, Writing(tmp, body, 0))]
    ensures Possible(w, s, Write(0, count))
    ensures After(w, s, Write(0, count))
         == State(map[tmp := body[..count]], s.dirs, s.used, [Download(job, Writing(tmp, body, count))])
  {
    assert [] + body[0..count] == body[..count];
  }

  lemma {:induction false} WriteFirst(w: World, placed: State, writing: State, name: string, count: nat)
    returns (run: seq<Action>)
    requires Possible(w, placed, CreateTemp(0, name)) && After(w, placed, CreateTemp(0, name)) == writing
    requires Possible(w, writing, Write(0, count))
    ensures Runs(w, placed, run) && Final(w, placed, run) == After(w, writing, Write(0, count))
  {
    hide Possible, After;
    Prepend(w, writing, Write(0, count), []);
    Prepend(w, placed, CreateTemp(0, name), [Write(0, count)] + []);
    run := [CreateTemp(0, name)] + ([Write(0, count)] + []);
  }

  /** A download of a path that is there. */
  lemma {:induction false} Find(w: World, s: State, a: Job) returns (run: seq<Action>)
    requires w.requested(a) && Found(s, Local(a))
    ensures run == [Begin(a), Stat(|s.downloads|, true)] && Runs(w, s, run)
    ensures Final(w, s, run) == s.(downloads := s.downloads + [Download(a, Returned(Local(a)))])
  {
    hide Local, Found;
    var i := |s.downloads|;
    var begun := s.(downloads := s.downloads + [Download(a, Begun)]);
    assert After(w, s, Begin(a)) == begun;
    SameFound(s, begun, Local(a));
    Prepend(w, begun, Stat(i, true), []);
    Prepend(w, s, Begin(a), [Stat(i, true)] + []);
    run := [Begin(a)] + ([Stat(i, true)] + []);
  }

  /** A requested name shaped like a temporary file breaks the property: while another download into the
      same directory writes the file of that name, the name's own download finds it and returns a part of a file. */
  lemma TempRequestedBreaks(w: World, a: Job, b: Job, body: Bytes, count: nat) returns (run: seq<Action>)
    requires w.requested(a) && w.requested(b) && w.served(b, body) && 0 < count <= |body|
    requires IsTemp(Local(a)) && Directory(Local(a)) == Directory(Local(b))
    ensures Runs(w, EMPTY_CACHE, run)
    ensures var s := Final(w, EMPTY_CACHE, run);
            && s.downloads == [Download(b, Writing(Local(a), body, count)), Download(a, Returned(Local(a)))]
            && s.files == map[Local(a) := body[..count]]
  {
    hide Runs, Final, Possible, After;
    var local := Local(a);
    var name := local[|local| - 1];
    assert Directory(Local(b)) + [name] == local;
    run := WritePart(w, b, name, body, count);
    var found := Find(w, Final(w, EMPTY_CACHE, run), a);
    Append(w, EMPTY_CACHE, run, found);
    run := run + found;
  }

  /** In every run, a non-empty file at the path of a requested file has a complete content. */
  ghost predicate AlwaysComplete(w: World) {
    forall actions, job | Runs(w, EMPTY_CACHE, actions) && w.requested(job) && HoldsFile(w, actions, job) ::
      Complete(w, Local(job), Final(w, EMPTY_CACHE, actions).files[Local(job)])
  }

  /** Whatever the hub serves, a partial download never passes for a cached file exactly when no requested
      name is shaped like a temporary file. */
  lemma {:induction false} AlwaysCompleteIff(requested: Job -> bool)
    ensures (forall served: (Job, Bytes) -> bool :: AlwaysComplete(World(requested, served)))
            <==> forall job | requested(job) :: !(".download-" <= job.remote[|job.remote| - 1])
  {
    forall job ensures IsTemp(Local(job)) <==> ".download-" <= job.remote[|job.remote| - 1] {
      LastSegment(job);
    }
    if forall job | requested(job) :: !IsTemp(Local(job)) {
      forall served: (Job, Bytes) -> bool ensures AlwaysComplete(World(requested, served)) {
        NamesKeepComplete(World(requested, served));
      }
    }
    if job :| requested(job) && IsTemp(Local(job)) {
      TempNotComplete(requested, job);
    }
  }

  lemma LastSegment(job: Job)
    ensures Local(job) != [] && Local(job)[|Local(job)| - 1] == job.remote[|job.remote| - 1]
  {
  }

  lemma {:induction false} NamesKeepComplete(w: World)
    requires NoTempRequested(w)
    ensures AlwaysComplete(w)
  {
    hide Runs, Final, Complete, IsTemp, Local;
    forall actions, job | Runs(w, EMPTY_CACHE, actions) && w.requested(job) && HoldsFile(w, actions, job)
      ensures Complete(w, Local(job), Final(w, EMPTY_CACHE, actions).files[Local(job)])
    {
      VisibleIsComplete(w, actions, Local(job));
    }
  }

  /** Two downloads of a name shaped like a temporary file: the second finds half of what the first writes. */
  lemma {:induction false} TempNotComplete(requested: Job -> bool, job: Job)
    requires requested(job) && IsTemp(Local(job))
    ensures exists served: (Job, Bytes) -> bool :: !AlwaysComplete(World(requested, served))
  {
    hide Runs, Final, IsTemp;
    var body: Bytes := [1, 2];
    var w := World(requested, (j: Job, content: Bytes) => content == body);
    var run := TempRequestedBreaks(w, job, job, body, 1);
    assert Final(w, EMPTY_CACHE, run).files[Local(job)] == [1];
    assert HoldsFile(w, run, job) && !Complete(w, Local(job), [1]);
    assert !AlwaysComplete(w);
  }

  /** In every run, a path that is returned is one of a file with a complete content. */
  ghost predicate AlwaysReturnsComplete(w: World) {
    forall actions, a, i: nat, path | Returns(w, actions, a, i, path) ::
      var files := FilesThen(w, actions, a, i, path);
      path in files && Complete(w, path, files[path])
  }

  /** In every run, a path that is returned is one of a file with a content served for the download that returns it. */
  ghost predicate AlwaysReturnsOwn(w: World) {
    forall actions, a, i: nat, path | Returns(w, actions, a, i, path) ::
      var files := FilesThen(w, actions, a, i, path);
      path in files && w.served(Returner(w, actions, a, i, path), files[path])
  }

  /** After a run, a new download of a path that is there returns it. */
  lemma {:induction false} FindReturns(w: World, run: seq<Action>, a: Job) returns (actions: seq<Action>, i: nat)
    requires Runs(w, EMPTY_CACHE, run) && w.requested(a) && Found(Final(w, EMPTY_CACHE, run), Local(a))
    ensures Returns(w, actions, Stat(i, true), i, Local(a))
    ensures Returner(w, actions, Stat(i, true), i, Local(a)) == a
    ensures FilesThen(w, actions, Stat(i, true), i, Local(a)) == Final(w, EMPTY_CACHE, run).files
  {
    var s := Final(w, EMPTY_CACHE, run);
    i := |s.downloads|;
    var begun := s.(downloads := s.downloads + [Download(a, Begun)]);
    assert After(w, s, Begin(a)) == begun;
    Prepend(w, s, Begin(a), []);
    Append(w, EMPTY_CACHE, run, [Begin(a)] + []);
    actions := run + ([Begin(a)] + []);
    hide Runs, Final, Local, Found;
    assert Final(w, EMPTY_CACHE, actions) == begun;
    SameFound(s, begun, Local(a));
  }

  /** A requested path on the way to another: once the other's directories are made, the path is returned
      although it is a directory. */
  lemma {:induction false} NestedReturnsDirectory(w: World, a: Job, b: Job, body: Bytes)
    returns (actions: seq<Action>, i: nat)
    requires w.requested(a) && w.requested(b) && w.served(b, body) && Local(a) < Local(b)
    ensures Returns(w, actions, Stat(i, true), i, Local(a))
    ensures Local(a) in Final(w, EMPTY_CACHE, actions).dirs
    ensures FilesThen(w, actions, Stat(i, true), i, Local(a)) == map[]
  {
    var run := Place(w, EMPTY_CACHE, b, body);
    LevelsAbove(Local(b));
    hide Runs, Final, Local, Levels;
    var s := Final(w, EMPTY_CACHE, run);
    actions, i := FindReturns(w, run, a);
    FoundInDirs(w, actions, i, Local(a));
  }

  lemma {:induction false} FoundInDirs(w: World, actions: seq<Action>, i: nat, path: Path)
    requires Returns(w, actions, Stat(i, true), i, path) && FilesThen(w, actions, Stat(i, true), i, path) == map[]
    ensures path in Final(w, EMPTY_CACHE, actions).dirs
  {
    hide Runs, Final, Local;
  }

  /** For instance the default export makes the directory onnx, which is then returned as the file onnx. */
  lemma {:induction false} DirectoryReturned(w: World, body: Bytes) returns (actions: seq<Action>, i: nat)
    requires var a, b := Job(["m"], ["onnx"]), Job(["m"], ["onnx", "model.onnx"]);
             w.requested(a) && w.requested(b) && w.served(b, body)
    ensures Returns(w, actions, Stat(i, true), i, ["m", "onnx"])
    ensures ["m", "onnx"] in Final(w, EMPTY_CACHE, actions).dirs
  {
    var a, b := Job(["m"], ["onnx"]), Job(["m"], ["onnx", "model.onnx"]);
    assert Local(a) == ["m", "onnx"] && Local(b) == ["m", "onnx", "model.onnx"];
    actions, i := NestedReturnsDirectory(w, a, b, body);
  }

  /** Without names shaped like temporary files, and whatever the hub serves, every path that is returned is one
      of a complete file exactly when no requested path is a directory on the way to another. */
  lemma {:induction false} ReturnsCompleteIff(requested: Job -> bool)
    requires forall job | requested(job) :: !IsTemp(Local(job))
    ensures (forall served: (Job, Bytes) -> bool :: AlwaysReturnsComplete(World(requested, served)))
            <==> forall a, b | requested(a) && requested(b) :: !(Local(a) < Local(b))
  {
    if forall a, b | requested(a) && requested(b) :: !(Local(a) < Local(b)) {
      forall served: (Job, Bytes) -> bool ensures AlwaysReturnsComplete(World(requested, served)) {
        ApartReturnsComplete(World(requested, served));
      }
    }
    if a, b :| requested(a) && requested(b) && Local(a) < Local(b) {
      var w := World(requested, (job: Job, content: Bytes) => true);
      NestedNotReturned(w, a, b);
    }
  }

  lemma {:induction false} ApartReturnsComplete(w: World)
    requires NoTempRequested(w) && NoneNested(w)
    ensures AlwaysReturnsComplete(w)
  {
    hide Returns, Complete, Local, IsTemp;
    forall actions, a, i: nat, path | Returns(w, actions, a, i, path)
      ensures var files := FilesThen(w, actions, a, i, path); path in files && Complete(w, path, files[path])
    {
      ReturnsComplete(w, actions, a, i, path);
    }
  }

  lemma {:induction false} NestedNotReturned(w: World, a: Job, b: Job)
    requires w.requested(a) && w.requested(b) && w.served(b, []) && Local(a) < Local(b)
    ensures !AlwaysReturnsComplete(w) && !AlwaysReturnsOwn(w)
  {
    hide Returns, Local;
    var actions, i := NestedReturnsDirectory(w, a, b, []);
    assert Local(a) !in FilesThen(w, actions, Stat(i, true), i, Local(a));
  }

  /** Whatever the hub serves, every path that is returned is one of a file with its own content exactly when no
      requested name is shaped like a temporary file, no two requested files share a path, and no requested
      path is a directory on the way to another. */
  lemma {:induction false} ReturnsOwnIff(requested: Job -> bool)
    ensures (forall served: (Job, Bytes) -> bool :: AlwaysReturnsOwn(World(requested, served)))
            <==> && (forall job | requested(job) :: !IsTemp(Local(job)))
                 && (forall a, b | requested(a) && requested(b) && Local(a) == Local(b) :: a == b)
                 && (forall a, b | requested(a) && requested(b) :: !(Local(a) < Local(b)))
  {
    if job :| requested(job) && IsTemp(Local(job)) {
      TempNotOwn(requested, job);
    } else if a, b :| requested(a) && requested(b) && Local(a) < Local(b) {
      var w := World(requested, (job: Job, content: Bytes) => true);
      NestedNotReturned(w, a, b);
    } else if a, b :| requested(a) && requested(b) && Local(a) == Local(b) && a != b {
      SharedNotOwn(requested, a, b);
    } else {
      forall served: (Job, Bytes) -> bool ensures AlwaysReturnsOwn(World(requested, served)) {
        ApartReturnsOwn(World(requested, served));
      }
    }
  }

  lemma {:induction false} ApartReturnsOwn(w: World)
    requires NoTempRequested(w) && NoneNested(w) && LocalsDistinct(w)
    ensures AlwaysReturnsOwn(w)
  {
    hide Returns, Local, IsTemp;
    forall actions, a, i: nat, path | Returns(w, actions, a, i, path)
      ensures var files := FilesThen(w, actions, a, i, path);
              path in files && w.served(Returner(w, actions, a, i, path), files[path])
    {
      ReturnsComplete(w, actions, a, i, path);
      ReturnerRequested(w, actions, a, i, path);
    }
  }

  lemma {:induction false} ReturnerRequested(w: World, actions: seq<Action>, a: Action, i: nat, path: Path)
    requires NoTempRequested(w) && Returns(w, actions, a, i, path)
    ensures w.requested(Returner(w, actions, a, i, path))
  {
    hide Runs, Final, Local, Possible, After;
    RunPreserves(w, EMPTY_CACHE, actions);
    var s := Final(w, EMPTY_CACHE, actions);
    assert Knows(w, s.files, s.used, s.downloads[i]);
  }

  lemma {:induction false} TempNotOwn(requested: Job -> bool, job: Job)
    requires requested(job) && IsTemp(Local(job))
    ensures exists served: (Job, Bytes) -> bool :: !AlwaysReturnsOwn(World(requested, served))
  {
    var body: Bytes := [1, 2];
    var w := World(requested, (j: Job, content: Bytes) => content == body);
    var local := Local(job);
    assert Directory(local) + [local[|local| - 1]] == local;
    var run := WritePart(w, job, local[|local| - 1], body, 1);
    assert Final(w, EMPTY_CACHE, run).files[local] == [1];
    hide Runs, Final, Local, IsTemp, Returns;
    var actions, i := FindReturns(w, run, job);
    assert !AlwaysReturnsOwn(w);
  }

  lemma {:induction false} SharedNotOwn(requested: Job -> bool, a: Job, b: Job)
    requires requested(a) && requested(b) && Local(a) == Local(b) && a != b && !IsTemp(Local(a))
    ensures exists served: (Job, Bytes) -> bool :: !AlwaysReturnsOwn(World(requested, served))
  {
    var w := World(requested, (job: Job, content: Bytes) => job == a);
    hide Runs, Final, Local, IsTemp, Returns;
    FreshTemp(Local(a));
    var run := Fetch(w, EMPTY_CACHE, a, TEMP_PREFIX, [0]);
    var actions, i := FindReturns(w, run, b);
    assert !AlwaysReturnsOwn(w);
  }
}
