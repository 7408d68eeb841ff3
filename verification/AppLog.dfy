/** The rotating log that several sessions share (`Writer`, src/applog.rs): sessions
    start, take the lock, reopen, rotate, append, fail and die at any point. A
    `string` stands for bytes, and one append is one entry of a file. */
module AppLog {
  import opened Wrappers

  /** What one append left in a file: a line, or the start of one when the write failed
      part way, with the size limit of the session that wrote it. */
  datatype Entry = Entry(bytes: string, limit: nat)

  type Contents = seq<Entry>

  function Size(c: Contents): nat { if c == [] then 0 else Size(c[..|c| - 1]) + |c[|c| - 1].bytes| }

  /** The bytes of a file. */
  function Text(c: Contents): string { if c == [] then "" else Text(c[..|c| - 1]) + c[|c| - 1].bytes }

  lemma {:induction false} SizeIsLength(c: Contents)
    ensures Size(c) == |Text(c)|
  {
    if c != [] { SizeIsLength(c[..|c| - 1]); }
  }

  lemma {:induction false} TextAppend(a: Contents, b: Contents)
    ensures Text(a + b) == Text(a) + Text(b)
  {
    if b == [] {
      assert a + b == a;
    } else {
      assert (a + b)[..|a + b| - 1] == a + b[..|b| - 1];
      TextAppend(a, b[..|b| - 1]);
    }
  }

  /** `session` holds the lock except when idle. */
  datatype Phase =
    | Idle
    | Locked(line: string)
    | Opened(line: string, ino: nat, size: nat)
    | Renamed(line: string)
    | Ready(line: string, ino: nat, size: nat)
    | Releasing

  datatype Session = Session(limit: nat, phase: Phase)

  /** `log` is every append so far in the order of the lock. */
  datatype State = State(inodes: map<nat, Contents>, current: Option<nat>, rotated: Option<nat>,
                         sessions: map<nat, Session>, lock: Option<nat>, log: Contents)
  {
    function At(entry: Option<nat>): Contents {
      if entry.Some? && entry.value in inodes then inodes[entry.value] else []
    }

    function Current(): Contents { At(current) }

    function Rotated(): Contents { At(rotated) }

    function Moved(w: nat, phase: Phase): State
      requires w in sessions
    {
      State(inodes, current, rotated, sessions[w := Session(sessions[w].limit, phase)], lock, log)
    }

    /** Open the log for appending, creating it on a spare inode when it is not there. */
    function Touched(spare: nat): State {
      if current.Some? then this else State(inodes[spare := []], Some(spare), rotated, sessions, lock, log)
    }
  }

  // ----- steps ---------------------------------------------------------------------------

  datatype Action =
    | Start(w: nat, maxBytes: nat, spare: nat)
    | Acquire(w: nat, line: string)
    | Reopen(w: nat, spare: nat)
    | Rename(w: nat)
    | Recreate(w: nat, spare: nat)
    | Keep(w: nat)
    | Append(w: nat, kept: nat)
    | Fail(w: nat)
    | Release(w: nat)
    | Kill(w: nat)

  predicate Holds(s: State, w: nat) { w in s.sessions && s.lock == Some(w) }

  predicate TooLong(line: string, size: nat, limit: nat) { size + |line| > limit && size > 0 }

  /** `Writer::open` touches the log without taking the lock. */
  predicate StartStep(s: State, s': State, w: nat, maxBytes: nat, spare: nat) {
    && w !in s.sessions && spare !in s.inodes
    && var limit := if maxBytes == 0 then 1 else maxBytes;
    s' == s.Touched(spare).(sessions := s.sessions[w := Session(limit, Idle)])
  }

  predicate AcquireStep(s: State, s': State, w: nat, line: string) {
    && w in s.sessions && s.sessions[w].phase.Idle? && s.lock.None?
    && s' == s.Moved(w, Locked(line)).(lock := Some(w))
  }

  predicate ReopenStep(s: State, s': State, w: nat, spare: nat) {
    && Holds(s, w) && s.sessions[w].phase.Locked? && spare !in s.inodes
    && var t := s.Touched(spare);
    s' == t.Moved(w, Opened(s.sessions[w].phase.line, t.current.value, Size(t.Current())))
  }

  /** Only one previous generation is kept: the rename replaces it. */
  predicate RenameStep(s: State, s': State, w: nat) {
    && Holds(s, w) && s.sessions[w].phase.Opened? && s.current.Some?
    && var Session(limit, Opened(line, ino, size)) := s.sessions[w];
    && TooLong(line, size, limit)
    && s' == s.Moved(w, Renamed(line)).(current := None, rotated := s.current)
  }

  predicate RecreateStep(s: State, s': State, w: nat, spare: nat) {
    && Holds(s, w) && s.sessions[w].phase.Renamed? && spare !in s.inodes
    && var t := s.Touched(spare);
    s' == t.Moved(w, Ready(s.sessions[w].phase.line, t.current.value, 0))
  }

  predicate KeepStep(s: State, s': State, w: nat) {
    && Holds(s, w) && s.sessions[w].phase.Opened?
    && var Session(limit, Opened(line, ino, size)) := s.sessions[w];
    && !TooLong(line, size, limit)
    && s' == s.Moved(w, Ready(line, ino, size))
  }

  /** What a write of `kept` bytes of the line adds. */
  function Piece(line: string, kept: nat, limit: nat): Contents
    requires kept <= |line|
  {
    if kept == 0 then [] else [Entry(line[..kept], limit)]
  }

  /** `write_all` through the handle; fewer bytes than the line when it fails. */
  predicate AppendStep(s: State, s': State, w: nat, kept: nat) {
    && Holds(s, w) && s.sessions[w].phase.Ready?
    && var Session(limit, Ready(line, ino, size)) := s.sessions[w];
    && kept <= |line| && ino in s.inodes
    && var more := Piece(line, kept, limit);
    s' == s.Moved(w, Releasing).(inodes := s.inodes[ino := s.inodes[ino] + more], log := s.log + more)
  }

  ghost predicate Step(s: State, s': State, a: Action) {
    match a
    case Start(w, maxBytes, spare) => StartStep(s, s', w, maxBytes, spare)
    case Acquire(w, line) => AcquireStep(s, s', w, line)
    case Reopen(w, spare) => ReopenStep(s, s', w, spare)
    case Rename(w) => RenameStep(s, s', w)
    case Recreate(w, spare) => RecreateStep(s, s', w, spare)
    case Keep(w) => KeepStep(s, s', w)
    case Append(w, kept) => AppendStep(s, s', w, kept)
    case Fail(w) => Holds(s, w) && !s.sessions[w].phase.Idle? && s' == s.Moved(w, Releasing)
    case Release(w) => Holds(s, w) && s.sessions[w].phase.Releasing? && s' == s.Moved(w, Idle).(lock := None)
    case Kill(w) =>
      w in s.sessions && s' == s.(sessions := s.sessions - {w}, lock := if s.lock == Some(w) then None else s.lock)
  }

  ghost predicate Next(s: State, s': State) { exists a :: Step(s, s', a) }

  ghost predicate Run(trace: seq<State>) {
    trace != [] && forall i :: 0 <= i < |trace| - 1 ==> Next(trace[i], trace[i + 1])
  }

  // ----- the invariant ----------------------------------------------------------------------

  predicate Suffix(s: Contents, of: Contents) { |s| <= |of| && of[|of| - |s|..] == s }

  /** A file is within the limit of the session that wrote it last, or is one entry. */
  predicate Fits(c: Contents) { |c| <= 1 || Size(c) <= c[|c| - 1].limit }

  ghost predicate FilesSound(s: State) {
    && (s.current.Some? ==> s.current.value in s.inodes)
    && (s.rotated.Some? ==> s.rotated.value in s.inodes && s.rotated != s.current)
    && (forall i :: i in s.inodes ==> Fits(s.inodes[i]) && forall e :: e in s.inodes[i] ==> e.bytes != "")
    && Suffix(s.Rotated() + s.Current(), s.log)
  }

  /** What a session knows while it holds the lock is still true of the file. */
  ghost predicate SessionSound(s: State, w: nat)
    requires w in s.sessions
  {
    var Session(limit, p) := s.sessions[w];
    && (!p.Idle? ==> s.lock == Some(w))
    && (p.Opened? || p.Ready? ==> s.current == Some(p.ino) && p.ino in s.inodes && p.size == Size(s.inodes[p.ino]))
    && (p.Renamed? ==> s.Current() == [])
    && (p.Ready? ==> !TooLong(p.line, p.size, limit))
  }

  ghost predicate Inv(s: State) { FilesSound(s) && forall w :: w in s.sessions ==> SessionSound(s, w) }

  /** A system at rest, with whatever sound log earlier sessions left. */
  ghost predicate Initial(s: State) { FilesSound(s) && s.sessions == map[] && s.lock.None? }

  lemma TouchKeepsInv(s: State, spare: nat)
    requires Inv(s) && spare !in s.inodes
    ensures Inv(s.Touched(spare)) && s.Touched(spare).Current() == s.Current()
  {
    var t := s.Touched(spare);
    assert t.Rotated() == s.Rotated();
    forall w | w in t.sessions ensures SessionSound(t, w) {
      assert SessionSound(s, w);
    }
  }

  lemma {:induction false} NothingIsEmpty(c: Contents)
    requires forall e :: e in c ==> e.bytes != ""
    ensures Size(c) == 0 <==> c == []
  {
  }

  lemma SizeOne(c: Contents, e: Entry)
    ensures Size(c + [e]) == Size(c) + |e.bytes|
  {
    assert (c + [e])[..|c|] == c;
  }

  lemma FitsOneMore(s: State, ino: nat, line: string, kept: nat, limit: nat)
    requires FilesSound(s) && ino in s.inodes && kept <= |line| && !TooLong(line, Size(s.inodes[ino]), limit)
    ensures Fits(s.inodes[ino] + Piece(line, kept, limit))
  {
    var was := s.inodes[ino];
    if kept == 0 {
      assert was + [] == was;
    } else {
      SizeOne(was, Entry(line[..kept], limit));
      NothingIsEmpty(was);
    }
  }

  lemma AppendKeepsFiles(s: State, s': State, ino: nat, more: Contents)
    requires FilesSound(s) && s.current == Some(ino) && ino in s.inodes
    requires s'.inodes == s.inodes[ino := s.inodes[ino] + more] && s'.log == s.log + more
    requires s'.current == s.current && s'.rotated == s.rotated
    requires Fits(s.inodes[ino] + more) && forall e :: e in more ==> e.bytes != ""
    ensures FilesSound(s')
  {
    hide Fits;
    assert s'.Current() == s.Current() + more && s'.Rotated() == s.Rotated();
    var both := s.Rotated() + s.Current();
    assert s'.Rotated() + s'.Current() == both + more;
    assert s.log == s.log[..|s.log| - |both|] + both;
    assert s'.log == s.log[..|s.log| - |both|] + (both + more);
  }

  lemma AppendIsSound(s: State, s': State, w: nat, kept: nat)
    requires FilesSound(s) && AppendStep(s, s', w, kept) && SessionSound(s, w)
    ensures FilesSound(s')
  {
    hide FilesSound, Fits, Size, TooLong;
    var Session(limit, Ready(line, ino, size)) := s.sessions[w];
    FitsOneMore(s, ino, line, kept, limit);
    AppendKeepsFiles(s, s', ino, Piece(line, kept, limit));
  }

  lemma AppendKeepsInv(s: State, s': State, w: nat, kept: nat)
    requires Inv(s) && AppendStep(s, s', w, kept)
    ensures Inv(s')
  {
    hide FilesSound, Size, TooLong;
    assert SessionSound(s, w);
    AppendIsSound(s, s', w, kept);
    forall v | v in s'.sessions ensures SessionSound(s', v) {
      assert SessionSound(s, v);
    }
  }

  lemma RenameIsSound(s: State, s': State, w: nat)
    requires FilesSound(s) && RenameStep(s, s', w)
    ensures FilesSound(s') && s'.Rotated() == s.Current() && s'.Current() == []
  {
    hide Fits, TooLong;
    assert s'.Rotated() + s'.Current() == s.Current();
  }

  lemma RenameKeepsInv(s: State, s': State, w: nat)
    requires Inv(s) && RenameStep(s, s', w)
    ensures Inv(s')
  {
    hide FilesSound, TooLong, Size;
    RenameIsSound(s, s', w);
    assert SessionSound(s, w);
    forall v | v in s'.sessions ensures SessionSound(s', v) {
      assert SessionSound(s, v);
    }
  }

  lemma ReopenKeepsInv(s: State, s': State, w: nat, spare: nat)
    requires Inv(s) && ReopenStep(s, s', w, spare)
    ensures Inv(s')
  {
    TouchKeepsInv(s, spare);
    SessionsKeepInv(s.Touched(spare), s', w);
  }

  lemma RecreateKeepsInv(s: State, s': State, w: nat, spare: nat)
    requires Inv(s) && RecreateStep(s, s', w, spare)
    ensures Inv(s')
  {
    TouchKeepsInv(s, spare);
    assert SessionSound(s, w);
    SessionsKeepInv(s.Touched(spare), s', w);
  }

  lemma StepKeepsInv(s: State, s': State, a: Action)
    requires Inv(s) && Step(s, s', a)
    ensures Inv(s')
  {
    hide FilesSound, TooLong, AppendStep, RenameStep, ReopenStep, RecreateStep, Size;
    match a
    case Start(w, maxBytes, spare) =>
      TouchKeepsInv(s, spare);
      SessionsKeepInv(s.Touched(spare), s', w);
    case Reopen(w, spare) => ReopenKeepsInv(s, s', w, spare);
    case Recreate(w, spare) => RecreateKeepsInv(s, s', w, spare);
    case Rename(w) => RenameKeepsInv(s, s', w);
    case Append(w, kept) => AppendKeepsInv(s, s', w, kept);
    case Acquire(w, line) => SessionsKeepInv(s, s', w);
    case Keep(w) => assert SessionSound(s, w); SessionsKeepInv(s, s', w);
    case Fail(w) => SessionsKeepInv(s, s', w);
    case Release(w) => SessionsKeepInv(s, s', w);
    case Kill(w) => SessionsKeepInv(s, s', w);
  }

  /** Only session `w` and the lock it may take or drop changed. */
  lemma SessionsKeepInv(s: State, s': State, w: nat)
    requires Inv(s)
    requires s'.inodes == s.inodes && s'.current == s.current && s'.rotated == s.rotated && s'.log == s.log
    requires s'.sessions - {w} == s.sessions - {w}
    requires s'.lock == s.lock || s.lock.None? || s.lock == Some(w)
    requires w in s'.sessions ==> SessionSound(s', w)
    ensures Inv(s')
  {
    forall v | v in s'.sessions ensures SessionSound(s', v) {
      if v != w {
        assert v in s'.sessions - {w};
        assert SessionSound(s, v);
      }
    }
  }

  lemma {:induction false} RunKeepsInv(trace: seq<State>, i: nat)
    requires Run(trace) && Initial(trace[0]) && i < |trace|
    ensures Inv(trace[i])
  {
    if i > 0 {
      RunKeepsInv(trace, i - 1);
      assert Next(trace[i - 1], trace[i - 1 + 1]);
      var a :| Step(trace[i - 1], trace[i], a);
      StepKeepsInv(trace[i - 1], trace[i], a);
    }
  }

  /** Under every interleaving, failure and death: the rotated file and then the
      current one hold the most recent appends of all sessions, in the order of the
      lock and cut between two of them, and each file fits the limit of its last
      writer unless it is a single append. */
  lemma LogIsRecentHistory(trace: seq<State>, i: nat)
    requires Run(trace) && Initial(trace[0]) && i < |trace|
    ensures var s := trace[i];
      && Suffix(s.Rotated() + s.Current(), s.log)
      && (exists lost :: s.log == lost + s.Rotated() + s.Current()
                         && Text(s.log) == Text(lost) + Text(s.Rotated()) + Text(s.Current()))
      && Fits(s.Rotated()) && Fits(s.Current())
  {
    hide Run, Initial;
    RunKeepsInv(trace, i);
    hide Suffix, Fits, Text;
    SuffixSplits(trace[i].log, trace[i].Rotated(), trace[i].Current());
  }

  /** What one step does to the two files: nothing goes and what is added stands at the end,
      or the current file takes the place of the rotated one because a line would have taken
      it, not being empty, past its session's limit. */
  ghost predicate KeptOrRotated(s: State, s': State) {
    || (s'.Rotated() == s.Rotated() && s.Current() <= s'.Current())
    || (&& s'.Rotated() == s.Current() && s'.Current() == [] && Text(s.Current()) != ""
        && exists w :: && w in s.sessions && s.sessions[w].phase.Opened?
                       && |Text(s.Current())| + |s.sessions[w].phase.line| > s.sessions[w].limit)
  }

  lemma StepKeepsOrRotates(s: State, s': State, a: Action)
    requires Inv(s) && Step(s, s', a)
    ensures KeptOrRotated(s, s')
  {
    hide Fits, Suffix, Text, Size;
    if a.Rename? {
      assert SessionSound(s, a.w);
      SizeIsLength(s.Current());
      assert |Text(s.Current())| + |s.sessions[a.w].phase.line| > s.sessions[a.w].limit;
    } else if a.Append? {
      assert SessionSound(s, a.w);
    }
  }

  /** Under every interleaving an append leaves the two files only when a rename replaces the
      rotated file it stands in, and every rename was needed. */
  lemma OnlyFullLogsRotate(trace: seq<State>, i: nat)
    requires Run(trace) && Initial(trace[0]) && i + 1 < |trace|
    ensures KeptOrRotated(trace[i], trace[i + 1])
  {
    hide Inv, Step, KeptOrRotated;
    RunKeepsInv(trace, i);
    assert Next(trace[i], trace[i + 1]);
    var a :| Step(trace[i], trace[i + 1], a);
    StepKeepsOrRotates(trace[i], trace[i + 1], a);
  }

  lemma SuffixSplits(log: Contents, rotated: Contents, current: Contents)
    requires Suffix(rotated + current, log)
    ensures exists lost :: log == lost + rotated + current && Text(log) == Text(lost) + Text(rotated) + Text(current)
  {
    var both := rotated + current;
    var lost := log[..|log| - |both|];
    assert log == lost + both;
    assert lost + both == lost + rotated + current;
    TextAppend(lost, rotated);
    TextAppend(lost + rotated, current);
  }

  // ----- the code of one write, as a run of those steps ---------------------------------------

  /** Where one write fails: before the stage runs, or part way through the append. */
  datatype Fault = NoFault | AtOpen | AtRename | AtRecreate | AtAppend(kept: nat)

  class Directory {
    var state: State
    ghost var trace: seq<State>

    ghost predicate Valid()
      reads this
    {
      Run(trace) && trace[|trace| - 1] == state && Inv(state)
    }

    constructor (s: State)
      requires Initial(s)
      ensures Valid() && state == s && trace == [s]
    {
      state, trace := s, [s];
    }

    method Do(next: State, ghost a: Action)
      requires Valid() && Step(state, next, a)
      modifies this
      ensures Valid() && state == next && old(trace) <= trace
    {
      StepKeepsInv(state, next, a);
      RunExtends(trace, next, a);
      state, trace := next, trace + [next];
    }

    /** `Writer::open`: a session's limit is at least one byte, the log is there from now on,
        and what both files hold stays. */
    method Begin(w: nat, maxBytes: nat, spare: nat)
      requires Valid() && w !in state.sessions && spare !in state.inodes
      modifies this
      ensures Valid() && old(trace) <= trace && SameLog(state, old(state)) && state.current.Some?
      ensures w in state.sessions && state.sessions[w].phase.Idle? && state.lock == old(state.lock)
      ensures forall v :: v in old(state.sessions) ==>
                v in state.sessions && state.sessions[v] == old(state.sessions)[v]
      ensures var limit := state.sessions[w].limit; 0 < limit && maxBytes <= limit && limit in {1, maxBytes}
    {
      var limit := if maxBytes < 1 then 1 else maxBytes;
      TouchKeepsInv(state, spare);
      Do(state.Touched(spare).(sessions := state.sessions[w := Session(limit, Idle)]), Start(w, maxBytes, spare));
    }

    /** Take the lock and reopen the log, which another session may have replaced. */
    method Open(w: nat, line: string, spare: nat, fault: Fault) returns (ok: bool)
      requires Valid() && w in state.sessions && state.sessions[w].phase.Idle? && state.lock.None?
      requires spare !in state.inodes
      modifies this
      ensures Valid() && old(trace) <= trace && SameLog(state, old(state)) && Holds(state, w)
      ensures ok == !fault.AtOpen? && state.inodes.Keys <= old(state.inodes).Keys + {spare}
      ensures state.sessions[w].limit == old(state.sessions)[w].limit
      ensures var p := state.sessions[w].phase;
              if ok then p.Opened? && p.line == line && p.size == Size(state.Current()) else p.Releasing?
    {
      Do(state.Moved(w, Locked(line)).(lock := Some(w)), Acquire(w, line));
      if fault.AtOpen? {
        Do(state.Moved(w, Releasing), Fail(w));
        return false;
      }
      TouchKeepsInv(state, spare);
      var t := state.Touched(spare);
      Do(t.Moved(w, Opened(line, t.current.value, Size(t.Current()))), Reopen(w, spare));
      return true;
    }

    /** Rotate when the line would take a log that holds something over its limit. */
    method MakeRoom(w: nat, spare: nat, fault: Fault) returns (ok: bool)
      requires Valid() && Holds(state, w) && state.sessions[w].phase.Opened? && spare !in state.inodes
      modifies this
      ensures Valid() && old(trace) <= trace && Holds(state, w) && state.log == old(state.log)
      ensures state.sessions[w].limit == old(state.sessions)[w].limit
      ensures var Session(limit, was) := old(state.sessions)[w];
              var p, text := state.sessions[w].phase, Text(old(state.Current()));
              var full := text != "" && |text| + |was.line| > limit;
              && (ok <==> !full || !(fault.AtRename? || fault.AtRecreate?))
              && (if full && !fault.AtRename? then state.Rotated() == old(state.Current()) && state.Current() == []
                  else SameLog(state, old(state)))
              && if ok then p.Ready? && p.line == was.line else p.Releasing?
    {
      var Session(limit, Opened(line, ino, size)) := state.sessions[w];
      assert SessionSound(state, w);
      SizeIsLength(state.Current());
      if !TooLong(line, size, limit) {
        Do(state.Moved(w, Ready(line, ino, size)), Keep(w));
        return true;
      }
      if !fault.AtRename? {
        Do(state.Moved(w, Renamed(line)).(current := None, rotated := state.current), Rename(w));
        if !fault.AtRecreate? {
          TouchKeepsInv(state, spare);
          var t := state.Touched(spare);
          Do(t.Moved(w, Ready(line, t.current.value, 0)), Recreate(w, spare));
          return true;
        }
      }
      Do(state.Moved(w, Releasing), Fail(w));
      return false;
    }

    method AppendBytes(w: nat, kept: nat)
      requires Valid() && Holds(state, w) && state.sessions[w].phase.Ready?
      requires kept <= |state.sessions[w].phase.line|
      modifies this
      ensures Valid() && old(trace) <= trace && Holds(state, w)
      ensures state.sessions[w] == Session(old(state.sessions)[w].limit, Releasing)
      ensures var Session(limit, p) := old(state.sessions)[w];
              var more := Piece(p.line, kept, limit);
              && state.log == old(state.log) + more && state.Current() == old(state.Current()) + more
              && state.Rotated() == old(state.Rotated())
    {
      var Session(limit, Ready(line, ino, size)) := state.sessions[w];
      assert SessionSound(state, w);
      var more := Piece(line, kept, limit);
      Do(state.Moved(w, Releasing).(inodes := state.inodes[ino := state.inodes[ino] + more], log := state.log + more),
         Append(w, kept));
    }

    method Give(w: nat)
      requires Valid() && Holds(state, w) && state.sessions[w].phase.Releasing?
      modifies this
      ensures Valid() && old(trace) <= trace && SameLog(state, old(state)) && state.lock.None?
      ensures w in state.sessions && state.sessions[w] == Session(old(state.sessions)[w].limit, Idle)
    {
      Do(state.Moved(w, Idle).(lock := None), Release(w));
    }

    /** `Writer::write`, undisturbed: exactly what it leaves in both files and when it
        succeeds, for every place it can fail. */
    method Write(w: nat, line: string, spare: nat, spare': nat, fault: Fault) returns (ok: bool)
      requires Valid() && w in state.sessions && state.sessions[w].phase.Idle? && state.lock.None?
      requires spare !in state.inodes && spare' !in state.inodes && spare != spare'
      modifies this
      ensures Valid() && old(trace) <= trace && state.lock.None?
      ensures w in state.sessions && state.sessions[w] == old(state.sessions)[w]
      ensures var limit, was := old(state.sessions)[w].limit, old(state.Current());
              var full := Text(was) != "" && |Text(was)| + |line| > limit;
              var rotates := full && !fault.AtOpen? && !fault.AtRename?;
              var more := Piece(line, Reaches(line, full, fault), limit);
              && (ok <==> fault.NoFault? || (!full && (fault.AtRename? || fault.AtRecreate?)))
              && state.log == old(state.log) + more
              && state.Current() == (if rotates then [] else was) + more
              && state.Rotated() == if rotates then was else old(state.Rotated())
      ensures fault.NoFault? ==>
                var limit, was := old(state.sessions)[w].limit, Text(old(state.Current()));
                if was == "" || |was| + |line| <= limit
                then Text(state.Current()) == was + line && state.Rotated() == old(state.Rotated())
                else Text(state.Current()) == line && Text(state.Rotated()) == was
    {
      hide Inv, Run, Step, TooLong, Size, Text;
      ok := Open(w, line, spare, fault);
      if ok {
        ok := MakeRoom(w, spare', fault);
        if ok {
          var n := if fault.AtAppend? && fault.kept < |line| then fault.kept else |line|;
          AppendBytes(w, n);
          ok := !fault.AtAppend?;
        }
      }
      Give(w);
      PieceText(line, old(state.sessions)[w].limit, old(state.Current()));
    }
  }

  lemma PieceText(line: string, limit: nat, was: Contents)
    ensures Text(was + Piece(line, |line|, limit)) == Text(was) + line
    ensures Text([] + Piece(line, |line|, limit)) == line
  {
    TextAppend(was, Piece(line, |line|, limit));
    TextAppend([], Piece(line, |line|, limit));
    assert line[..|line|] == line;
    PieceIs(line, limit);
  }

  lemma PieceIs(line: string, limit: nat)
    ensures Text(Piece(line, |line|, limit)) == line && Text([]) == ""
  {
    if line != "" { assert [Entry(line, limit)][..0] == [] && line[..|line|] == line; }
  }

  /** How many bytes of the line reach the file. */
  function Reaches(line: string, full: bool, fault: Fault): (n: nat)
    ensures n <= |line|
  {
    if fault.AtOpen? || (full && (fault.AtRename? || fault.AtRecreate?)) then 0
    else if fault.AtAppend? && fault.kept < |line| then fault.kept
    else |line|
  }

  predicate SameLog(s: State, was: State) {
    s.log == was.log && s.Current() == was.Current() && s.Rotated() == was.Rotated()
  }

  lemma RunExtends(trace: seq<State>, next: State, a: Action)
    requires Run(trace) && Step(trace[|trace| - 1], next, a)
    ensures Run(trace + [next])
  {
    var longer := trace + [next];
    forall i | 0 <= i < |longer| - 1
      ensures Next(longer[i], longer[i + 1])
    {
      if i < |trace| - 1 {
        assert Next(trace[i], trace[i + 1]);
      }
    }
  }
}
