/** Crash-safe replacement of a state file (src/atomicfile.rs): any number of
    writers create a temp file exclusively, write, sync, close and rename it,
    while processes die, calls fail and the machine loses power at any point.

    The system is a step relation over the file system and the writers. A
    directory is the list of its versions since the last one known to be on
    disk: a power loss keeps, entry by entry, any of them. An inode's bytes
    survive a power loss only once they are synced. */
module AtomicFile {
  import opened Wrappers

  type Name = string
  type Bytes = seq<bv8>
  type Directory = map<Name, nat>

  const TEMP_ATTEMPTS := 16

  datatype Inode = Inode(data: Bytes, synced: bool)

  datatype Phase =
    | Claiming(tries: nat)
    | Writing(temp: Name, ino: nat, pos: nat)
    | Synced(temp: Name, ino: nat)
    | Closed(temp: Name, ino: nat)
    | Cleaning(temp: Name, ino: nat)
    | Finished(ok: bool)
    | Dead

  datatype Writer = Writer(contents: Bytes, phase: Phase)

  datatype State = State(dirs: seq<Directory>, inodes: map<nat, Inode>, writers: map<nat, Writer>)
  {
    /** The directory as every process sees it. */
    function Now(): Directory
      requires dirs != []
    {
      dirs[|dirs| - 1]
    }

    function Changed(d: Directory): State { State(dirs + [d], inodes, writers) }

    function Moved(w: nat, phase: Phase): State
      requires w in writers
    {
      State(dirs, inodes, writers[w := Writer(writers[w].contents, phase)])
    }
  }

  predicate Owns(p: Phase) { p.Writing? || p.Synced? || p.Closed? || p.Cleaning? }

  /** The phases in which the writer still holds an open handle. */
  predicate HasHandle(p: Phase) { p.Writing? || p.Synced? }

  predicate Live(s: State, w: nat) { s.dirs != [] && w in s.writers }

  // ----- steps -------------------------------------------------------------

  datatype Action =
    | Spawn(w: nat, contents: Bytes)
    | Claim(w: nat, temp: Name, ino: nat)
    | ClaimFails(w: nat)
    | Write(w: nat, n: nat)
    | Sync(w: nat)
    | Close(w: nat)
    | Rename(w: nat)
    | Fail(w: nat)
    | CleanUp(w: nat)
    | CleanUpFails(w: nat)
    | Kill(w: nat)
    | FlushDirectory(n: nat)
    | PowerLoss(kept: Directory, inodes: map<nat, Inode>)

  /** `create_new` on a sibling name the adversary picked. */
  predicate ClaimStep(path: Name, s: State, s': State, w: nat, temp: Name, ino: nat) {
    && Live(s, w) && s.writers[w].phase.Claiming?
    && temp != path
    && if temp in s.Now() then
         var tries := s.writers[w].phase.tries + 1;
         s' == s.Moved(w, if tries < TEMP_ATTEMPTS then Claiming(tries) else Finished(false))
       else
         && ino !in s.inodes
         && s' == State(s.dirs + [s.Now()[temp := ino]], s.inodes[ino := Inode([], false)],
                        s.writers[w := Writer(s.writers[w].contents, Writing(temp, ino, 0))])
  }

  /** Overwrite `data` from `pos` with `chunk`, as a write through a handle does. */
  function Overwrite(data: Bytes, pos: nat, chunk: Bytes): Bytes
    requires pos <= |data|
  {
    data[..pos] + chunk + (if pos + |chunk| <= |data| then data[pos + |chunk|..] else [])
  }

  predicate WriteStep(s: State, s': State, w: nat, n: nat) {
    && Live(s, w) && s.writers[w].phase.Writing?
    && var Writer(contents, Writing(temp, ino, pos)) := s.writers[w];
    && pos + n <= |contents|
    && ino in s.inodes && pos <= |s.inodes[ino].data|
    && var data := Overwrite(s.inodes[ino].data, pos, contents[pos..pos + n]);
    && s' == State(s.dirs, s.inodes[ino := Inode(data, false)],
                   s.writers[w := Writer(contents, Writing(temp, ino, pos + n))])
  }

  predicate SyncStep(s: State, s': State, w: nat) {
    && Live(s, w) && s.writers[w].phase.Writing?
    && var Writer(contents, Writing(temp, ino, pos)) := s.writers[w];
    && pos == |contents|
    && ino in s.inodes
    && s' == State(s.dirs, s.inodes[ino := Inode(s.inodes[ino].data, true)],
                   s.writers[w := Writer(contents, Synced(temp, ino))])
  }

  predicate RenameStep(path: Name, s: State, s': State, w: nat) {
    && Live(s, w) && s.writers[w].phase.Closed?
    && var temp := s.writers[w].phase.temp;
    && temp in s.Now()
    && s' == s.Moved(w, Finished(true)).Changed((s.Now() - {temp})[path := s.Now()[temp]])
  }

  /** Any call between the write and the rename may return an error; the handle
      is closed on the way to the cleanup. */
  predicate FailStep(s: State, s': State, w: nat) {
    && Live(s, w) && (s.writers[w].phase.Writing? || s.writers[w].phase.Synced? || s.writers[w].phase.Closed?)
    && s' == s.Moved(w, Cleaning(s.writers[w].phase.temp, s.writers[w].phase.ino))
  }

  predicate CleanUpStep(s: State, s': State, w: nat) {
    && Live(s, w) && s.writers[w].phase.Cleaning?
    && s' == s.Moved(w, Finished(false)).Changed(s.Now() - {s.writers[w].phase.temp})
  }

  ghost predicate MayKeep(s: State, kept: Directory) {
    && (forall n :: n in kept ==> exists i :: 0 <= i < |s.dirs| && n in s.dirs[i] && s.dirs[i][n] == kept[n])
    && (forall n :: n !in kept ==> exists i :: 0 <= i < |s.dirs| && n !in s.dirs[i])
  }

  ghost predicate PowerLossStep(s: State, s': State, kept: Directory, inodes: map<nat, Inode>) {
    && MayKeep(s, kept)
    && inodes.Keys == s.inodes.Keys
    && (forall i :: i in s.inodes && s.inodes[i].synced ==> inodes[i] == s.inodes[i])
    && s' == State([kept], inodes,
                   map w | w in s.writers :: Writer(s.writers[w].contents,
                                                    if s.writers[w].phase.Finished? then s.writers[w].phase else Dead))
  }

  ghost predicate Step(path: Name, s: State, s': State, a: Action) {
    match a
    case Spawn(w, contents) =>
      w !in s.writers && s' == State(s.dirs, s.inodes, s.writers[w := Writer(contents, Claiming(0))])
    case Claim(w, temp, ino) => ClaimStep(path, s, s', w, temp, ino)
    case ClaimFails(w) => Live(s, w) && s.writers[w].phase.Claiming? && s' == s.Moved(w, Finished(false))
    case Write(w, n) => WriteStep(s, s', w, n)
    case Sync(w) => SyncStep(s, s', w)
    case Close(w) =>
      && Live(s, w) && s.writers[w].phase.Synced?
      && s' == s.Moved(w, Closed(s.writers[w].phase.temp, s.writers[w].phase.ino))
    case Rename(w) => RenameStep(path, s, s', w)
    case Fail(w) => FailStep(s, s', w)
    case CleanUp(w) => CleanUpStep(s, s', w)
    case CleanUpFails(w) => Live(s, w) && s.writers[w].phase.Cleaning? && s' == s.Moved(w, Finished(false))
    case Kill(w) => Live(s, w) && !s.writers[w].phase.Finished? && s' == s.Moved(w, Dead)
    case FlushDirectory(n) => n < |s.dirs| && s' == State(s.dirs[n..], s.inodes, s.writers)
    case PowerLoss(kept, inodes) => PowerLossStep(s, s', kept, inodes)
  }

  ghost predicate Next(path: Name, s: State, s': State) { exists a :: Step(path, s, s', a) }

  /** One durable directory, whole synced inodes behind it, nobody writing. */
  ghost predicate Initial(path: Name, s: State) {
    && |s.dirs| == 1
    && s.writers == map[]
    && (forall n :: n in s.Now() ==> s.Now()[n] in s.inodes)
    && (path in s.Now() ==> s.inodes[s.Now()[path]].synced)
  }

  ghost predicate Run(path: Name, trace: seq<State>) {
    && trace != []
    && (forall i :: 0 <= i < |trace| - 1 ==> Next(path, trace[i], trace[i + 1]))
  }

  // ----- what holds in every reachable state -----------------------------------

  function TargetIn(path: Name, s: State, d: Directory): Option<Bytes> {
    if path in d && d[path] in s.inodes then Some(s.inodes[d[path]].data) else None
  }

  /** The bytes a reader of the state file sees now; None when it is absent. */
  function Target(path: Name, s: State): Option<Bytes>
    requires s.dirs != []
  {
    TargetIn(path, s, s.Now())
  }

  /** The initial bytes, or the complete contents of one write. */
  ghost predicate Whole(initial: Option<Bytes>, s: State, found: Option<Bytes>) {
    found == initial || exists w :: w in s.writers && found == Some(s.writers[w].contents)
  }

  ghost predicate DirectoriesSound(path: Name, initial: Option<Bytes>, s: State) {
    && s.dirs != []
    && (forall i, n :: 0 <= i < |s.dirs| && n in s.dirs[i] ==> s.dirs[i][n] in s.inodes)
    && (forall i :: 0 <= i < |s.dirs| ==> Whole(initial, s, TargetIn(path, s, s.dirs[i])))
    && (forall i :: 0 <= i < |s.dirs| && path in s.dirs[i] ==> s.inodes[s.dirs[i][path]].synced)
  }

  /** A writer past its claim owns its temp entry, and the inode behind it is
      neither published in any version of the directory nor anybody else's. */
  ghost predicate OwnerSound(path: Name, s: State, w: nat)
    requires s.dirs != [] && w in s.writers && Owns(s.writers[w].phase)
  {
    var Writer(contents, p) := s.writers[w];
    && p.temp != path
    && p.temp in s.Now() && s.Now()[p.temp] == p.ino
    && p.ino in s.inodes
    && (forall i :: 0 <= i < |s.dirs| && path in s.dirs[i] ==> s.dirs[i][path] != p.ino)
    && (p.Writing? ==> p.pos <= |contents| && s.inodes[p.ino].data == contents[..p.pos])
    && (p.Synced? || p.Closed? ==> s.inodes[p.ino] == Inode(contents, true))
  }

  ghost predicate OwnersSound(path: Name, s: State)
    requires s.dirs != []
  {
    && (forall w :: w in s.writers && Owns(s.writers[w].phase) ==> OwnerSound(path, s, w))
    && (forall v, w :: v in s.writers && w in s.writers && v != w
                       && Owns(s.writers[v].phase) && Owns(s.writers[w].phase)
                       ==> s.writers[v].phase.ino != s.writers[w].phase.ino)
  }

  ghost predicate Inv(path: Name, initial: Option<Bytes>, s: State) {
    DirectoriesSound(path, initial, s) && OwnersSound(path, s)
  }

  lemma WholeSurvives(path: Name, initial: Option<Bytes>, s: State, s': State, found: Option<Bytes>)
    requires Whole(initial, s, found)
    requires forall w :: w in s.writers ==> w in s'.writers && s'.writers[w].contents == s.writers[w].contents
    ensures Whole(initial, s', found)
  {
    if found != initial {
      var w :| w in s.writers && found == Some(s.writers[w].contents);
      assert w in s'.writers;
    }
  }

  /** Steps that leave every directory version and the published inodes alone. */
  lemma KeepDirectories(path: Name, initial: Option<Bytes>, s: State, s': State)
    requires DirectoriesSound(path, initial, s)
    requires s'.dirs != [] && forall d :: d in s'.dirs ==> d in s.dirs
    requires s.inodes.Keys <= s'.inodes.Keys
    requires forall i :: 0 <= i < |s.dirs| && path in s.dirs[i] ==>
               s'.inodes[s.dirs[i][path]] == s.inodes[s.dirs[i][path]]
    requires forall w :: w in s.writers ==> w in s'.writers && s'.writers[w].contents == s.writers[w].contents
    ensures DirectoriesSound(path, initial, s')
  {
    forall i | 0 <= i < |s'.dirs|
      ensures Whole(initial, s', TargetIn(path, s', s'.dirs[i]))
      ensures forall n :: n in s'.dirs[i] ==> s'.dirs[i][n] in s'.inodes
      ensures path in s'.dirs[i] ==> s'.dirs[i][path] in s'.inodes && s'.inodes[s'.dirs[i][path]].synced
    {
      assert s'.dirs[i] in s.dirs;
      var k :| 0 <= k < |s.dirs| && s.dirs[k] == s'.dirs[i];
      assert TargetIn(path, s', s'.dirs[i]) == TargetIn(path, s, s.dirs[k]);
      WholeSurvives(path, initial, s, s', TargetIn(path, s, s.dirs[k]));
    }
  }

  /** Steps that change one writer's phase and nothing else. */
  lemma PhaseKeepsInv(path: Name, initial: Option<Bytes>, s: State, s': State, w: nat, to: Writer)
    requires Inv(path, initial, s)
    requires s' == State(s.dirs, s.inodes, s.writers[w := to])
    requires w in s.writers ==> to.contents == s.writers[w].contents
    requires Owns(to.phase) ==>
               && OwnerSound(path, s', w)
               && w in s.writers && Owns(s.writers[w].phase) && s.writers[w].phase.ino == to.phase.ino
    ensures Inv(path, initial, s')
  {
    KeepDirectories(path, initial, s, s');
    forall v | v in s'.writers && Owns(s'.writers[v].phase)
      ensures OwnerSound(path, s', v)
    {
      if v != w { assert OwnerSound(path, s, v); }
    }
  }

  /** Steps through an open handle: one inode and one writer change. */
  lemma HandleKeepsInv(path: Name, initial: Option<Bytes>, s: State, s': State, w: nat, to: Writer, data: Inode)
    requires Inv(path, initial, s)
    requires w in s.writers && Owns(s.writers[w].phase) && to.contents == s.writers[w].contents
    requires s' == State(s.dirs, s.inodes[s.writers[w].phase.ino := data], s.writers[w := to])
    requires Owns(to.phase) && s.writers[w].phase.ino == to.phase.ino && OwnerSound(path, s', w)
    ensures Inv(path, initial, s')
  {
    assert OwnerSound(path, s, w);
    KeepDirectories(path, initial, s, s');
    forall v | v in s'.writers && Owns(s'.writers[v].phase)
      ensures OwnerSound(path, s', v)
    {
      if v != w { assert OwnerSound(path, s, v); }
    }
  }

  lemma CreateKeepsDirectories(path: Name, initial: Option<Bytes>, s: State, s': State, temp: Name, ino: nat)
    requires DirectoriesSound(path, initial, s) && temp != path && ino !in s.inodes
    requires s'.dirs == s.dirs + [s.Now()[temp := ino]] && s'.inodes == s.inodes[ino := Inode([], false)]
    requires forall w :: w in s.writers ==> w in s'.writers && s'.writers[w].contents == s.writers[w].contents
    ensures DirectoriesSound(path, initial, s')
  {
    forall i | 0 <= i < |s'.dirs|
      ensures Whole(initial, s', TargetIn(path, s', s'.dirs[i]))
      ensures path in s'.dirs[i] ==> s'.inodes[s'.dirs[i][path]].synced
    {
      var k := if i < |s.dirs| then i else |s.dirs| - 1;
      assert TargetIn(path, s', s'.dirs[i]) == TargetIn(path, s, s.dirs[k]);
      WholeSurvives(path, initial, s, s', TargetIn(path, s, s.dirs[k]));
    }
  }

  lemma ClaimKeepsInv(path: Name, initial: Option<Bytes>, s: State, s': State, w: nat, temp: Name, ino: nat)
    requires Inv(path, initial, s) && ClaimStep(path, s, s', w, temp, ino)
    ensures Inv(path, initial, s')
  {
    if temp in s.Now() {
      PhaseKeepsInv(path, initial, s, s', w, s'.writers[w]);
    } else {
      CreateKeepsDirectories(path, initial, s, s', temp, ino);
      assert s.dirs[|s.dirs| - 1] == s.Now();
      forall v | v in s'.writers && Owns(s'.writers[v].phase)
        ensures OwnerSound(path, s', v)
      {
        if v != w { assert OwnerSound(path, s, v); }
      }
    }
  }

  lemma RenameKeepsInv(path: Name, initial: Option<Bytes>, s: State, s': State, w: nat)
    requires Inv(path, initial, s) && RenameStep(path, s, s', w)
    ensures Inv(path, initial, s') && Target(path, s') == Some(s.writers[w].contents)
  {
    assert OwnerSound(path, s, w);
    forall i | 0 <= i < |s'.dirs|
      ensures Whole(initial, s', TargetIn(path, s', s'.dirs[i]))
    {
      if i < |s.dirs| {
        WholeSurvives(path, initial, s, s', TargetIn(path, s, s.dirs[i]));
      } else {
        assert TargetIn(path, s', s'.dirs[i]) == Some(s'.writers[w].contents);
      }
    }
  }

  lemma CleanUpKeepsInv(path: Name, initial: Option<Bytes>, s: State, s': State, w: nat)
    requires Inv(path, initial, s) && CleanUpStep(s, s', w)
    ensures Inv(path, initial, s')
  {
    assert OwnerSound(path, s, w);
    forall i | 0 <= i < |s'.dirs|
      ensures Whole(initial, s', TargetIn(path, s', s'.dirs[i]))
    {
      var k := if i < |s.dirs| then i else |s.dirs| - 1;
      assert TargetIn(path, s', s'.dirs[i]) == TargetIn(path, s, s.dirs[k]);
      WholeSurvives(path, initial, s, s', TargetIn(path, s, s.dirs[k]));
    }
    assert s'.dirs[|s.dirs| - 1] == s.Now();
  }

  lemma PowerLossKeepsInv(
    path: Name, initial: Option<Bytes>, s: State, s': State, kept: Directory, inodes: map<nat, Inode>)
    requires Inv(path, initial, s) && PowerLossStep(s, s', kept, inodes)
    ensures Inv(path, initial, s')
    ensures exists i :: 0 <= i < |s.dirs| && Target(path, s') == TargetIn(path, s, s.dirs[i])
  {
    var i :|
      && 0 <= i < |s.dirs| && (path in s.dirs[i] <==> path in kept)
      && (path in kept ==> s.dirs[i][path] == kept[path]);
    assert TargetIn(path, s', kept) == TargetIn(path, s, s.dirs[i]);
    WholeSurvives(path, initial, s, s', TargetIn(path, s, s.dirs[i]));
    assert forall w :: w in s'.writers ==> !Owns(s'.writers[w].phase);
  }

  lemma WriteKeepsInv(path: Name, initial: Option<Bytes>, s: State, s': State, w: nat, n: nat)
    requires Inv(path, initial, s) && WriteStep(s, s', w, n)
    ensures Inv(path, initial, s')
  {
    assert OwnerSound(path, s, w);
    var Writer(contents, Writing(temp, ino, pos)) := s.writers[w];
    assert contents[..pos] + contents[pos..pos + n] == contents[..pos + n];
    HandleKeepsInv(path, initial, s, s', w, s'.writers[w], s'.inodes[ino]);
  }

  lemma SyncKeepsInv(path: Name, initial: Option<Bytes>, s: State, s': State, w: nat)
    requires Inv(path, initial, s) && SyncStep(s, s', w)
    ensures Inv(path, initial, s')
  {
    assert OwnerSound(path, s, w);
    var Writer(contents, Writing(temp, ino, pos)) := s.writers[w];
    assert contents[..pos] == contents;
    HandleKeepsInv(path, initial, s, s', w, s'.writers[w], s'.inodes[ino]);
  }

  lemma OwnedPhaseKeepsInv(path: Name, initial: Option<Bytes>, s: State, s': State, w: nat)
    requires Inv(path, initial, s)
    requires Step(path, s, s', Close(w)) || Step(path, s, s', Fail(w))
    ensures Inv(path, initial, s')
  {
    assert OwnerSound(path, s, w);
    PhaseKeepsInv(path, initial, s, s', w, s'.writers[w]);
  }

  lemma FlushKeepsInv(path: Name, initial: Option<Bytes>, s: State, s': State, n: nat)
    requires Inv(path, initial, s) && Step(path, s, s', FlushDirectory(n))
    ensures Inv(path, initial, s')
  {
    KeepDirectories(path, initial, s, s');
    forall v | v in s'.writers && Owns(s'.writers[v].phase)
      ensures OwnerSound(path, s', v)
    {
      assert OwnerSound(path, s, v);
    }
  }

  lemma StepKeepsInv(path: Name, initial: Option<Bytes>, s: State, s': State, a: Action)
    requires Inv(path, initial, s) && Step(path, s, s', a)
    ensures Inv(path, initial, s')
  {
    match a
    case Claim(w, temp, ino) => ClaimKeepsInv(path, initial, s, s', w, temp, ino);
    case Rename(w) => RenameKeepsInv(path, initial, s, s', w);
    case CleanUp(w) => CleanUpKeepsInv(path, initial, s, s', w);
    case PowerLoss(kept, inodes) => PowerLossKeepsInv(path, initial, s, s', kept, inodes);
    case Write(w, n) => WriteKeepsInv(path, initial, s, s', w, n);
    case Sync(w) => SyncKeepsInv(path, initial, s, s', w);
    case FlushDirectory(n) => FlushKeepsInv(path, initial, s, s', n);
    case Spawn(w, contents) => PhaseKeepsInv(path, initial, s, s', w, s'.writers[w]);
    case ClaimFails(w) => PhaseKeepsInv(path, initial, s, s', w, s'.writers[w]);
    case Close(w) => OwnedPhaseKeepsInv(path, initial, s, s', w);
    case Fail(w) => OwnedPhaseKeepsInv(path, initial, s, s', w);
    case CleanUpFails(w) => PhaseKeepsInv(path, initial, s, s', w, s'.writers[w]);
    case Kill(w) => PhaseKeepsInv(path, initial, s, s', w, s'.writers[w]);
  }

  lemma InitialInv(path: Name, s: State)
    requires Initial(path, s)
    ensures Inv(path, Target(path, s), s)
  {
  }

  lemma {:induction false} RunKeepsInv(path: Name, trace: seq<State>, i: nat)
    requires Run(path, trace) && Initial(path, trace[0]) && i < |trace|
    ensures Inv(path, Target(path, trace[0]), trace[i])
  {
    if i == 0 {
      InitialInv(path, trace[0]);
    } else {
      RunKeepsInv(path, trace, i - 1);
      assert Next(path, trace[i - 1], trace[i - 1 + 1]);
      var a :| Step(path, trace[i - 1], trace[i], a);
      StepKeepsInv(path, Target(path, trace[0]), trace[i - 1], trace[i], a);
    }
  }

  /** Safety over whole runs: however writers interleave, collide, fail, die or
      lose power, the target is what it was at the start or the complete contents
      of one write, and no open handle reaches the published inode. */
  lemma TargetIsNeverTorn(path: Name, trace: seq<State>, i: nat)
    requires Run(path, trace) && Initial(path, trace[0]) && i < |trace|
    ensures trace[i].dirs != []
    ensures Whole(Target(path, trace[0]), trace[i], Target(path, trace[i]))
    ensures forall w :: w in trace[i].writers && HasHandle(trace[i].writers[w].phase) && path in trace[i].Now() ==>
              trace[i].writers[w].phase.ino != trace[i].Now()[path]
  {
    RunKeepsInv(path, trace, i);
    var s := trace[i];
    assert s.dirs[|s.dirs| - 1] == s.Now();
    forall w | w in s.writers && HasHandle(s.writers[w].phase) && path in s.Now()
      ensures s.writers[w].phase.ino != s.Now()[path]
    {
      assert OwnerSound(path, s, w);
    }
  }

  /** What a reader sees changes only when a writer renames its complete file into
      place, or when power is lost before a rename reached the disk. */
  lemma TargetChangesOnlyByRename(path: Name, initial: Option<Bytes>, s: State, s': State, a: Action)
    requires Inv(path, initial, s) && Step(path, s, s', a)
    ensures s'.dirs != []
    ensures a.Rename? ==> Target(path, s') == Some(s.writers[a.w].contents)
    ensures a.PowerLoss? ==> exists i :: 0 <= i < |s.dirs| && Target(path, s') == TargetIn(path, s, s.dirs[i])
    ensures !a.Rename? && !a.PowerLoss? ==> Target(path, s') == Target(path, s)
  {
    assert s.dirs[|s.dirs| - 1] == s.Now();
    match a
    case Rename(w) => RenameKeepsInv(path, initial, s, s', w);
    case PowerLoss(kept, inodes) => PowerLossKeepsInv(path, initial, s, s', kept, inodes);
    case Write(w, n) => assert OwnerSound(path, s, w);
    case Sync(w) => assert OwnerSound(path, s, w);
    case CleanUp(w) => assert OwnerSound(path, s, w);
    case _ =>
  }

  /** Cleaning up removes one entry: the writer's own temp file, which no other
      writer is using. */
  lemma CleanUpRemovesOwnTemp(path: Name, initial: Option<Bytes>, s: State, s': State, w: nat)
    requires Inv(path, initial, s) && Step(path, s, s', CleanUp(w))
    ensures var p := s.writers[w].phase;
            && p.temp in s.Now() && s.Now()[p.temp] == p.ino
            && s'.Now() == s.Now() - {p.temp}
            && forall v :: v in s.writers && v != w && Owns(s.writers[v].phase) ==>
                 s.writers[v].phase.temp != p.temp && s.writers[v].phase.temp in s'.Now()
  {
    assert OwnerSound(path, s, w);
    forall v | v in s.writers && v != w && Owns(s.writers[v].phase)
      ensures s.writers[v].phase.temp != s.writers[w].phase.temp && s.writers[v].phase.temp in s'.Now()
    {
      assert OwnerSound(path, s, v);
    }
  }

  // ----- the code of one writer, as a run of those steps --------------------------

  /** Which calls fail during one write: creates by attempt number, the write after
      some bytes, then the sync, the rename and the cleanup. */
  datatype Faults = Faults(create: set<nat>, write: Option<nat>, sync: bool, rename: bool, cleanup: bool)

  /** Attempt `k` is the first that does not meet an existing name, and its create
      succeeds. */
  predicate ClaimsAt(now: Directory, candidate: nat -> Name, f: Faults, k: nat) {
    && k < TEMP_ATTEMPTS
    && (forall j :: 0 <= j < k ==> candidate(j) in now && j !in f.create)
    && candidate(k) !in now && k !in f.create
  }

  predicate Uninterrupted(f: Faults, contents: Bytes) {
    (f.write.None? || f.write.value >= |contents|) && !f.sync && !f.rename
  }

  datatype Attempt = Created | Taken | Refused

  class Volume {
    var state: State
    ghost var trace: seq<State>

    ghost predicate Valid(path: Name, initial: Option<Bytes>)
      reads this
    {
      Run(path, trace) && trace[|trace| - 1] == state && Inv(path, initial, state)
    }

    constructor (path: Name, s: State)
      requires Initial(path, s)
      ensures Valid(path, Target(path, s)) && state == s && trace == [s]
    {
      state, trace := s, [s];
      new;
      InitialInv(path, s);
    }

    method Do(path: Name, ghost initial: Option<Bytes>, next: State, ghost a: Action)
      requires Valid(path, initial) && Step(path, state, next, a)
      modifies this
      ensures Valid(path, initial) && state == next && old(trace) <= trace
      ensures a.Rename? ==> Target(path, state) == Some(old(state).writers[a.w].contents)
      ensures !a.Rename? && !a.PowerLoss? ==> Target(path, state) == old(Target(path, state))
    {
      StepKeepsInv(path, initial, state, next, a);
      TargetChangesOnlyByRename(path, initial, state, next, a);
      RunExtends(path, trace, next, a);
      state, trace := next, trace + [next];
    }

    /** One `create_new` on a candidate name, which may also be refused outright. */
    method TryName(path: Name, ghost initial: Option<Bytes>, w: nat, ino: nat, temp: Name, refused: bool)
      returns (r: Attempt)
      requires Valid(path, initial) && ino !in state.inodes && temp != path
      requires w in state.writers && state.writers[w].phase.Claiming?
      modifies this
      ensures Valid(path, initial) && old(trace) <= trace && Target(path, state) == old(Target(path, state))
      ensures r == if refused then Refused else if temp in old(state.Now()) then Taken else Created
      ensures w in state.writers && state.writers[w].contents == old(state.writers)[w].contents
      ensures r.Created? ==>
                state.Now() == old(state.Now())[temp := ino] && state.writers[w].phase == Writing(temp, ino, 0)
      ensures !r.Created? ==> state.dirs == old(state.dirs) && state.inodes == old(state.inodes)
      ensures r.Taken? ==>
                var tries := old(state.writers)[w].phase.tries + 1;
                state.writers[w].phase == if tries < TEMP_ATTEMPTS then Claiming(tries) else Finished(false)
    {
      if refused {
        Do(path, initial, state.Moved(w, Finished(false)), ClaimFails(w));
        return Refused;
      }
      var Writer(contents, Claiming(tries)) := state.writers[w];
      r := if temp in state.Now() then Taken else Created;
      var next :=
        if r.Created? then
          State(state.dirs + [state.Now()[temp := ino]], state.inodes[ino := Inode([], false)],
                state.writers[w := Writer(contents, Writing(temp, ino, 0))])
        else state.Moved(w, if tries + 1 < TEMP_ATTEMPTS then Claiming(tries + 1) else Finished(false));
      Do(path, initial, next, Claim(w, temp, ino));
    }

    lemma HasDirectory(path: Name, initial: Option<Bytes>)
      requires Valid(path, initial)
      ensures state.dirs != []
    {
    }

    /** `create_temp`: take the next candidate while the name is in use. */
    method CreateTemp(path: Name, ghost initial: Option<Bytes>, w: nat, ino: nat, candidate: nat -> Name, f: Faults)
      returns (claimed: bool, ghost at: nat)
      requires Valid(path, initial) && ino !in state.inodes
      requires w in state.writers && state.writers[w].phase == Claiming(0)
      requires forall k :: candidate(k) != path
      modifies this
      ensures Valid(path, initial) && old(trace) <= trace && Target(path, state) == old(Target(path, state))
      ensures claimed ==>
                && ClaimsAt(old(state.Now()), candidate, f, at)
                && state.Now() == old(state.Now())[candidate(at) := ino]
                && w in state.writers
                && state.writers[w] == Writer(old(state.writers)[w].contents, Writing(candidate(at), ino, 0))
      ensures !claimed ==> (forall k :: !ClaimsAt(old(state.Now()), candidate, f, k)) && state.dirs == old(state.dirs)
    {
      hide Valid, Target;
      HasDirectory(path, initial);
      ghost var now, contents := state.Now(), state.writers[w].contents;
      var tries, r := 0, Taken;
      while tries < TEMP_ATTEMPTS && r.Taken?
        invariant 0 <= tries <= TEMP_ATTEMPTS && state.dirs != []
        invariant Valid(path, initial) && old(trace) <= trace && Target(path, state) == old(Target(path, state))
        invariant w in state.writers && state.writers[w].contents == contents
        invariant forall j :: 0 <= j < tries ==> candidate(j) in now && j !in f.create
        invariant r.Created? ==>
                    && ClaimsAt(now, candidate, f, tries)
                    && state.Now() == now[candidate(tries) := ino]
                    && state.writers[w].phase == Writing(candidate(tries), ino, 0)
        invariant !r.Created? ==> state.dirs == old(state.dirs) && state.inodes == old(state.inodes)
        invariant r.Refused? ==> tries in f.create
        invariant r.Taken? && tries < TEMP_ATTEMPTS ==> state.writers[w].phase == Claiming(tries)
        decreases TEMP_ATTEMPTS - tries, r.Taken?
      {
        r := TryName(path, initial, w, ino, candidate(tries), tries in f.create);
        HasDirectory(path, initial);
        if r.Taken? { tries := tries + 1; }
      }
      if !r.Created? { NoneClaims(now, candidate, f, tries); }
      return r.Created?, tries;
    }

    method WriteAll(path: Name, ghost initial: Option<Bytes>, w: nat, f: Faults) returns (ok: bool)
      requires Valid(path, initial)
      requires w in state.writers && state.writers[w].phase.Writing? && state.writers[w].phase.pos == 0
      modifies this
      ensures Valid(path, initial) && old(trace) <= trace
      ensures state.dirs == old(state.dirs) && Target(path, state) == old(Target(path, state))
      ensures var Writer(contents, p) := old(state.writers)[w];
              && (ok <==> f.write.None? || f.write.value >= |contents|)
              && exists n: nat :: n <= |contents| && (ok ==> n == |contents|)
                   && state.writers == old(state.writers)[w := Writer(contents, Writing(p.temp, p.ino, n))]
    {
      assert OwnerSound(path, state, w);
      var contents := state.writers[w].contents;
      var n := if f.write.Some? && f.write.value < |contents| then f.write.value else |contents|;
      Do(path, initial, Written(state, w, n), Write(w, n));
      ok := n == |contents|;
    }

    method SyncAndClose(path: Name, ghost initial: Option<Bytes>, w: nat, f: Faults) returns (ok: bool)
      requires Valid(path, initial)
      requires w in state.writers && state.writers[w].phase.Writing?
      requires state.writers[w].phase.pos == |state.writers[w].contents|
      modifies this
      ensures Valid(path, initial) && old(trace) <= trace && ok == !f.sync
      ensures state.dirs == old(state.dirs) && Target(path, state) == old(Target(path, state))
      ensures !ok ==> state == old(state)
      ensures ok ==> var Writer(contents, p) := old(state.writers)[w];
                     state.writers == old(state.writers)[w := Writer(contents, Closed(p.temp, p.ino))]
    {
      if f.sync { return false; }
      assert OwnerSound(path, state, w);
      var Writer(contents, Writing(temp, ino, _)) := state.writers[w];
      Do(path, initial,
         State(state.dirs, state.inodes[ino := Inode(state.inodes[ino].data, true)],
               state.writers[w := Writer(contents, Synced(temp, ino))]),
         Sync(w));
      Do(path, initial, state.Moved(w, Closed(temp, ino)), Close(w));
      return true;
    }

    /** The error path of `write_with`: drop the handle, remove the temp file. */
    method GiveUp(path: Name, ghost initial: Option<Bytes>, w: nat, f: Faults)
      requires Valid(path, initial) && w in state.writers
      requires var p := state.writers[w].phase; p.Writing? || p.Synced? || p.Closed?
      modifies this
      ensures Valid(path, initial) && old(trace) <= trace && Target(path, state) == old(Target(path, state))
      ensures state.writers == old(state.writers)[w := Writer(old(state.writers)[w].contents, Finished(false))]
      ensures state.Now()
           == if f.cleanup then old(state.Now()) else old(state.Now()) - {old(state.writers)[w].phase.temp}
    {
      var p := state.writers[w].phase;
      Do(path, initial, state.Moved(w, Cleaning(p.temp, p.ino)), Fail(w));
      if f.cleanup {
        Do(path, initial, state.Moved(w, Finished(false)), CleanUpFails(w));
      } else {
        Do(path, initial, state.Moved(w, Finished(false)).Changed(state.Now() - {p.temp}), CleanUp(w));
      }
    }

    /** `write_then_rename`, with the cleanup `write_with` runs when it fails. */
    method WriteThenRename(path: Name, ghost initial: Option<Bytes>, w: nat, f: Faults) returns (ok: bool)
      requires Valid(path, initial)
      requires w in state.writers && state.writers[w].phase.Writing? && state.writers[w].phase.pos == 0
      modifies this
      ensures Valid(path, initial) && old(trace) <= trace
      ensures ok <==> Uninterrupted(f, old(state.writers)[w].contents)
      ensures var Writer(contents, p) := old(state.writers)[w];
              if ok then
                && Target(path, state) == Some(contents)
                && state.Now() == (old(state.Now()) - {p.temp})[path := p.ino]
              else
                && Target(path, state) == old(Target(path, state))
                && state.Now() == if f.cleanup then old(state.Now()) else old(state.Now()) - {p.temp}
    {
      var temp := state.writers[w].phase.temp;
      ok := WriteAll(path, initial, w, f);
      if ok {
        ok := SyncAndClose(path, initial, w, f);
        if ok && !f.rename {
          assert OwnerSound(path, state, w);
          Do(path, initial,
             state.Moved(w, Finished(true)).Changed((state.Now() - {temp})[path := state.Now()[temp]]), Rename(w));
          return true;
        }
      }
      GiveUp(path, initial, w, f);
      return false;
    }

    method Begin(path: Name, ghost initial: Option<Bytes>, w: nat, contents: Bytes)
      requires Valid(path, initial) && w !in state.writers
      modifies this
      ensures Valid(path, initial) && old(trace) <= trace && Target(path, state) == old(Target(path, state))
      ensures state.dirs == old(state.dirs) && state.inodes == old(state.inodes)
      ensures w in state.writers && state.writers[w] == Writer(contents, Claiming(0))
    {
      var started := Writer(contents, Claiming(0));
      Do(path, initial, State(state.dirs, state.inodes, state.writers[w := started]), Spawn(w, contents));
    }

    /** `write_with`, undisturbed: it succeeds exactly when some attempt claims a
        name and no later call fails; success publishes `contents` and nothing
        else; failure leaves the target alone and, unless the cleanup fails too,
        the whole directory. */
    method WriteWith(path: Name, ghost initial: Option<Bytes>, w: nat, ino: nat, contents: Bytes,
                     candidate: nat -> Name, f: Faults) returns (ok: bool)
      requires Valid(path, initial) && ino !in state.inodes && w !in state.writers
      requires forall k :: candidate(k) != path
      modifies this
      ensures Valid(path, initial) && old(trace) <= trace
      ensures ok <==> (exists k :: ClaimsAt(old(state.Now()), candidate, f, k)) && Uninterrupted(f, contents)
      ensures ok ==> Target(path, state) == Some(contents) && state.Now() == old(state.Now())[path := ino]
      ensures !ok ==> Target(path, state) == old(Target(path, state))
      ensures !ok && !f.cleanup ==> state.Now() == old(state.Now())
    {
      ghost var now := state.Now();
      Begin(path, initial, w, contents);
      var claimed, at := CreateTemp(path, initial, w, ino, candidate, f);
      if !claimed { return false; }
      ok := WriteThenRename(path, initial, w, f);
      assert now[candidate(at) := ino] - {candidate(at)} == now;
    }
  }

  lemma NoneClaims(now: Directory, candidate: nat -> Name, f: Faults, tries: nat)
    requires forall j :: 0 <= j < tries ==> candidate(j) in now && j !in f.create
    requires tries in f.create || tries >= TEMP_ATTEMPTS
    ensures forall k :: !ClaimsAt(now, candidate, f, k)
  {
  }

  lemma RunExtends(path: Name, trace: seq<State>, next: State, a: Action)
    requires Run(path, trace) && Step(path, trace[|trace| - 1], next, a)
    ensures Run(path, trace + [next])
  {
    var longer := trace + [next];
    forall i | 0 <= i < |longer| - 1
      ensures Next(path, longer[i], longer[i + 1])
    {
      if i < |trace| - 1 {
        assert Next(path, trace[i], trace[i + 1]);
      }
    }
  }

  function Written(s: State, w: nat, n: nat): State
    requires w in s.writers && s.writers[w].phase.Writing?
    requires s.writers[w].phase.pos + n <= |s.writers[w].contents|
    requires s.writers[w].phase.ino in s.inodes && s.writers[w].phase.pos <= |s.inodes[s.writers[w].phase.ino].data|
  {
    var Writer(contents, Writing(temp, ino, pos)) := s.writers[w];
    var data := Overwrite(s.inodes[ino].data, pos, contents[pos..pos + n]);
    State(s.dirs, s.inodes[ino := Inode(data, false)], s.writers[w := Writer(contents, Writing(temp, ino, pos + n))])
  }
}
