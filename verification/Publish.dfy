/** Publishing the package tree to a shared bucket (`upload`, scripts/package_repos.py). */
module Publish {
  import opened Wrappers

  const MANIFEST := ".publish-manifest.json"
  const RETENTION := 7 * 24 * 3600
  const PACKAGE_FILES := ["*.deb", "*.rpm", "*.apk", "*.pkg.tar.zst", "*.pkg.tar.zst.sig"]
  const ENTRY_POINTS := ["/deb/dists/*/InRelease",
                         "/rpm/*/repodata/repomd.xml", "/rpm/*/repodata/repomd.xml.asc",
                         "/arch/*/sofka.*", "/alpine/*/APKINDEX.tar.gz"]

  // ----- rclone filter rules ---------------------------------------------------------

  /** `*` stands for any characters of one path segment. */
  predicate Glob(p: string, s: string)
    decreases |p| + |s|
  {
    if p == "" then s == ""
    else if p[0] == '*' then Glob(p[1..], s) || (s != "" && s[0] != '/' && Glob(p, s[1..]))
    else s != "" && s[0] == p[0] && Glob(p[1..], s[1..])
  }

  /** A pattern with a leading slash is tied to the top; any other matches the whole
      path or what follows one of its slashes. */
  predicate Matches(pattern: string, path: string) {
    if pattern != "" && pattern[0] == '/' then Glob(pattern[1..], path)
    else Glob(pattern, path) || exists i :: 0 <= i < |path| && path[i] == '/' && Glob(pattern, path[i + 1..])
  }

  predicate MatchesAny(patterns: seq<string>, path: string) {
    exists p :: p in patterns && Matches(p, path)
  }

  datatype Rule = Rule(keep: bool, pattern: string)

  function Rules(keep: bool, patterns: seq<string>): seq<Rule> {
    seq(|patterns|, i requires 0 <= i < |patterns| => Rule(keep, patterns[i]))
  }

  /** The first rule that matches decides; a path no rule names is kept. */
  predicate Selected(rules: seq<Rule>, path: string) {
    if rules == [] then true
    else if Matches(rules[0].pattern, path) then rules[0].keep
    else Selected(rules[1..], path)
  }

  datatype Phase = Packages | Referenced | EntryPoints

  function PhaseRules(phase: Phase): seq<Rule> {
    match phase
    case Packages => Rules(false, ENTRY_POINTS) + Rules(true, PACKAGE_FILES) + [Rule(false, "*")]
    case Referenced => Rules(false, ENTRY_POINTS + PACKAGE_FILES) + [Rule(true, "*")]
    case EntryPoints => Rules(true, ENTRY_POINTS) + [Rule(false, "*")]
  }

  function PhaseOf(path: string): Phase {
    if MatchesAny(ENTRY_POINTS, path) then EntryPoints
    else if MatchesAny(PACKAGE_FILES, path) then Packages
    else Referenced
  }

  function Rank(phase: Phase): nat {
    match phase case Packages => 0 case Referenced => 1 case EntryPoints => 2
  }

  lemma {:induction false} SameAnswer(keep: bool, patterns: seq<string>, more: seq<Rule>, path: string)
    ensures Selected(Rules(keep, patterns) + more, path)
         == if MatchesAny(patterns, path) then keep else Selected(more, path)
  {
    if patterns == [] {
      assert Rules(keep, patterns) + more == more;
    } else {
      SameAnswer(keep, patterns[1..], more, path);
      assert (Rules(keep, patterns) + more)[1..] == Rules(keep, patterns[1..]) + more;
      assert patterns == [patterns[0]] + patterns[1..];
    }
  }

  /** The pattern with its stars filled in, one after another. */
  function Filled(p: string, fills: seq<string>): Option<string> {
    if p == "" then (if fills == [] then Some("") else None)
    else if p[0] == '*' then
      if fills == [] then None
      else
        var rest := Filled(p[1..], fills[1..]);
        if rest.Some? then Some(fills[0] + rest.value) else None
    else
      var rest := Filled(p[1..], fills);
      if rest.Some? then Some([p[0]] + rest.value) else None
  }

  ghost predicate Fills(p: string, fills: seq<string>, s: string) {
    Filled(p, fills) == Some(s) && forall k :: 0 <= k < |fills| ==> '/' !in fills[k]
  }

  /** A path matches a pattern exactly when it is the pattern with each star filled in by
      characters of one segment. */
  lemma {:induction false} GlobIsFilling(p: string, s: string)
    ensures Glob(p, s) <==> exists fills :: Fills(p, fills, s)
    decreases |p| + |s|
  {
    if p == "" {
      if s == "" { assert Fills(p, [], s); }
    } else if p[0] == '*' {
      GlobIsFilling(p[1..], s);
      if fills :| Fills(p[1..], fills, s) {
        assert ([""] + fills)[1..] == fills && "" + s == s;
        assert Fills(p, [""] + fills, s);
      }
      if s != "" {
        GlobIsFilling(p, s[1..]);
        if fills :| s[0] != '/' && Fills(p, fills, s[1..]) { StarGrows(p, fills, s); }
      }
      if fills :| Fills(p, fills, s) { StarShrinks(p, fills, s); }
    } else {
      if s != "" { GlobIsFilling(p[1..], s[1..]); }
      if fills :| Fills(p, fills, s) {
        assert s[1..] == Filled(p[1..], fills).value;
        assert Fills(p[1..], fills, s[1..]);
      }
      if fills :| s != "" && s[0] == p[0] && Fills(p[1..], fills, s[1..]) {
        assert [p[0]] + s[1..] == s;
        assert Fills(p, fills, s);
      }
    }
  }

  lemma StarGrows(p: string, fills: seq<string>, s: string)
    requires p != "" && p[0] == '*' && s != "" && s[0] != '/' && Fills(p, fills, s[1..])
    ensures exists more :: Fills(p, more, s)
  {
    var more := [[s[0]] + fills[0]] + fills[1..];
    var rest := Filled(p[1..], fills[1..]).value;
    assert more[1..] == fills[1..];
    assert [s[0]] + fills[0] + rest == [s[0]] + (fills[0] + rest) == s;
    assert Fills(p, more, s);
  }

  lemma StarShrinks(p: string, fills: seq<string>, s: string)
    requires p != "" && p[0] == '*' && Fills(p, fills, s)
    ensures Fills(p[1..], fills[1..], s) || (s != "" && s[0] != '/' && exists less :: Fills(p, less, s[1..]))
  {
    var rest := Filled(p[1..], fills[1..]).value;
    if fills[0] == "" {
      assert fills[0] + rest == rest;
    } else {
      var less := [fills[0][1..]] + fills[1..];
      assert less[1..] == fills[1..] && s[0] == fills[0][0] && fills[0][0] in fills[0];
      assert s[1..] == fills[0][1..] + rest;
      assert Fills(p, less, s[1..]);
    }
  }

  lemma {:induction false} StarEatsSegment(s: string)
    requires '/' !in s
    ensures Glob("*", s)
  {
    if s != "" { StarEatsSegment(s[1..]); }
  }

  lemma {:induction false} StarMatches(path: string, from: nat)
    requires from <= |path| && (from == 0 || path[from - 1] == '/')
    ensures Matches("*", path)
    decreases |path| - from
  {
    if '/' in path[from..] {
      var i :| 0 <= i < |path[from..]| && path[from..][i] == '/';
      StarMatches(path, from + i + 1);
    } else {
      StarEatsSegment(path[from..]);
      assert from == 0 ==> path[0..] == path;
    }
  }

  /** The three copy phases partition every tree: each path belongs to exactly one. */
  lemma PhasesPartition(phase: Phase, path: string)
    ensures Selected(PhaseRules(phase), path) <==> phase == PhaseOf(path)
  {
    hide Matches, Glob;
    StarMatches(path, 0);
    var packages := Rules(true, PACKAGE_FILES) + [Rule(false, "*")];
    SameAnswer(false, ENTRY_POINTS, packages, path);
    SameAnswer(true, PACKAGE_FILES, [Rule(false, "*")], path);
    SameAnswer(false, ENTRY_POINTS + PACKAGE_FILES, [Rule(true, "*")], path);
    SameAnswer(true, ENTRY_POINTS, [Rule(false, "*")], path);
    assert MatchesAny(ENTRY_POINTS + PACKAGE_FILES, path)
      <==> MatchesAny(ENTRY_POINTS, path) || MatchesAny(PACKAGE_FILES, path);
    assert PhaseRules(Packages) == Rules(false, ENTRY_POINTS) + packages;
  }

  // ----- one run -----------------------------------------------------------------------

  /** When each file left the indexes; None for a file they still list. */
  type Ledger = map<string, Option<int>>

  /** `ledger` is what the manifest file says, when there is one. */
  datatype Bucket = Bucket(files: set<string>, ledger: Ledger)

  /** What a run publishes; `ledger` is what a tree file named as the manifest would say. */
  datatype Tree = Tree(files: set<string>, ledger: Ledger)

  function Recorded(b: Bucket): Ledger { if MANIFEST in b.files then b.ledger else map[] }

  /** A missing, null or zero time means the file leaves now. */
  function LeftAt(ledger: Ledger, name: string, now: int): int {
    if name in ledger && ledger[name].Some? && ledger[name].value != 0 then ledger[name].value else now
  }

  function Removed(b: Bucket, tree: Tree, now: int): map<string, int> {
    map name | name in b.files - tree.files - {MANIFEST} :: LeftAt(Recorded(b), name, now)
  }

  function Stale(b: Bucket, tree: Tree, now: int): set<string> {
    set name | name in b.files - tree.files - {MANIFEST} && now - LeftAt(Recorded(b), name, now) > RETENTION
  }

  function NewLedger(b: Bucket, tree: Tree, now: int): Ledger {
    map name | name in tree.files + (b.files - {MANIFEST} - Stale(b, tree, now)) ::
      if name in tree.files then None else Some(LeftAt(Recorded(b), name, now))
  }

  /** What a run that is not interrupted leaves behind. */
  function Completed(b: Bucket, tree: Tree, now: int): Bucket {
    Bucket(b.files + tree.files - Stale(b, tree, now) + {MANIFEST}, NewLedger(b, tree, now))
  }

  datatype Op = Put(name: string) | Delete(name: string) | Record(ledger: Ledger)

  function Done(b: Bucket, op: Op, tree: Tree): Bucket {
    match op
    case Put(name) => Bucket(b.files + {name}, if name == MANIFEST then tree.ledger else b.ledger)
    case Delete(name) => b.(files := b.files - {name})
    case Record(ledger) => Bucket(b.files + {MANIFEST}, ledger)
  }

  function Replay(b: Bucket, ops: seq<Op>, tree: Tree): Bucket {
    if ops == [] then b else Done(Replay(b, ops[..|ops| - 1], tree), ops[|ops| - 1], tree)
  }

  function Step(op: Op): nat { if op.Put? then Rank(PhaseOf(op.name)) else if op.Delete? then 3 else 4 }

  /** What a run may have done so far: every operation stands after all the copies of
      earlier phases, copies come from the tree, deletions are stale files, and the
      manifest is written once all of it is done. */
  ghost predicate Layered(ops: seq<Op>, b: Bucket, tree: Tree, now: int) {
    forall k :: 0 <= k < |ops| ==> InPlace(ops, k, b, tree, now)
  }

  ghost predicate InPlace(ops: seq<Op>, k: nat, b: Bucket, tree: Tree, now: int)
    requires k < |ops|
  {
    && (ops[k].Put? ==> ops[k].name in tree.files)
    && (ops[k].Delete? ==> ops[k].name in Stale(b, tree, now))
    && (ops[k].Record? ==> ops[k].ledger == NewLedger(b, tree, now))
    && (ops[k].Record? ==> forall f :: f in Stale(b, tree, now) ==> Delete(f) in ops[..k])
    && (forall f :: f in tree.files && Rank(PhaseOf(f)) < Step(ops[k]) ==> Put(f) in ops[..k])
    && (forall j :: 0 <= j < k ==> !ops[j].Record?)
  }

  predicate Finished(ops: seq<Op>) { ops != [] && ops[|ops| - 1].Record? }

  /** A store whose connection fails after `fuse` more operations. */
  class Store {
    var files: set<string>
    var ledger: Ledger
    var fuse: nat
    ghost var journal: seq<Op>

    ghost function State(): Bucket reads this { Bucket(files, ledger) }

    constructor (b: Bucket, fuse: nat)
      ensures State() == b && this.fuse == fuse && journal == []
    {
      files, ledger, this.fuse, journal := b.files, b.ledger, fuse, [];
    }

    method Do(op: Op, tree: Tree) returns (ok: bool)
      modifies this
      ensures ok <==> old(fuse) > 0
      ensures ok ==> State() == Done(old(State()), op, tree) && journal == old(journal) + [op] && fuse == old(fuse) - 1
      ensures !ok ==> State() == old(State()) && journal == old(journal) && fuse == 0
    {
      if fuse == 0 { return false; }
      match op {
        case Put(name) =>
          files := files + {name};
          if name == MANIFEST { ledger := tree.ledger; }
        case Delete(name) =>
          files := files - {name};
        case Record(entries) =>
          files, ledger := files + {MANIFEST}, entries;
      }
      fuse, journal := fuse - 1, journal + [op];
      return true;
    }

    /** One `rclone copy`: the selected files in any order. */
    method Copy(phase: Phase, tree: Tree, ghost b: Bucket, ghost now: int) returns (ok: bool)
      requires !Finished(journal) && Layered(journal, b, tree, now) && State() == Replay(b, journal, tree)
      requires forall f :: f in tree.files && Rank(PhaseOf(f)) < Rank(phase) ==> Put(f) in journal
      modifies this
      ensures !Finished(journal) && Layered(journal, b, tree, now) && State() == Replay(b, journal, tree)
      ensures ok ==> forall f :: f in tree.files && Rank(PhaseOf(f)) <= Rank(phase) ==> Put(f) in journal
      ensures |journal| + fuse == old(|journal| + fuse) && (ok || fuse == 0)
    {
      hide Layered, Stale, NewLedger, Replay, PhaseOf;
      var rest := set f | f in tree.files && Selected(PhaseRules(phase), f);
      forall f ensures f in rest <==> f in tree.files && PhaseOf(f) == phase {
        PhasesPartition(phase, f);
      }
      while rest != {}
        invariant !Finished(journal) && Layered(journal, b, tree, now) && State() == Replay(b, journal, tree)
        invariant rest <= tree.files && forall f :: f in rest ==> PhaseOf(f) == phase
        invariant forall f :: f in tree.files && Rank(PhaseOf(f)) < Rank(phase) ==> Put(f) in journal
        invariant forall f :: f in tree.files && PhaseOf(f) == phase && f !in rest ==> Put(f) in journal
        invariant |journal| + fuse == old(|journal| + fuse)
      {
        var f :| f in rest;
        OneMore(journal, Put(f), b, tree, now);
        ok := Do(Put(f), tree);
        if !ok { return; }
        rest := rest - {f};
      }
      ok := true;
    }

    method DeleteAll(stale: set<string>, tree: Tree, ghost b: Bucket, ghost now: int) returns (ok: bool)
      requires !Finished(journal) && Layered(journal, b, tree, now) && State() == Replay(b, journal, tree)
      requires forall f :: f in tree.files ==> Put(f) in journal
      requires stale == Stale(b, tree, now)
      modifies this
      ensures !Finished(journal) && Layered(journal, b, tree, now) && State() == Replay(b, journal, tree)
      ensures old(journal) <= journal
      ensures ok ==> forall f :: f in stale ==> Delete(f) in journal
      ensures |journal| + fuse == old(|journal| + fuse) && (ok || fuse == 0)
    {
      hide Layered, Stale, NewLedger, Replay, PhaseOf;
      var rest := stale;
      while rest != {}
        invariant !Finished(journal) && Layered(journal, b, tree, now) && State() == Replay(b, journal, tree)
        invariant rest <= stale && old(journal) <= journal
        invariant forall f :: f in stale && f !in rest ==> Delete(f) in journal
        invariant |journal| + fuse == old(|journal| + fuse)
      {
        var f :| f in rest;
        OneMore(journal, Delete(f), b, tree, now);
        ok := Do(Delete(f), tree);
        if !ok { return; }
        rest := rest - {f};
      }
      ok := true;
    }

    /** One run. It ends early only where the store fails. */
    method Upload(tree: Tree, now: int) returns (done: bool)
      requires journal == []
      modifies this
      ensures State() == Replay(old(State()), journal, tree)
      ensures Layered(journal, old(State()), tree, now)
      ensures done <==> Finished(journal)
      ensures done ==> State() == Completed(old(State()), tree, now)
      ensures |journal| + fuse == old(fuse) && (done || fuse == 0)
    {
      hide Layered, Replay, LeftAt, PhaseOf, Recorded;
      ghost var b := State();
      NothingDone(b, tree, now);
      var removed := Removed(Bucket(files, ledger), tree, now);
      done := Copy(Packages, tree, b, now);
      if !done { return; }
      done := Copy(Referenced, tree, b, now);
      if !done { return; }
      done := Copy(EntryPoints, tree, b, now);
      if !done { return; }
      var stale := set name | name in removed && now - removed[name] > RETENTION;
      done := DeleteAll(stale, tree, b, now);
      if !done { return; }
      var entries := map name | name in tree.files + (removed.Keys - stale) ::
        if name in tree.files then None else Some(removed[name]);
      assert entries == NewLedger(b, tree, now);
      OneMore(journal, Record(entries), b, tree, now);
      done := Do(Record(entries), tree);
      if done { FinishedIsCompleted(journal, b, tree, now); }
    }
  }

  lemma NothingDone(b: Bucket, tree: Tree, now: int)
    ensures Layered([], b, tree, now) && Replay(b, [], tree) == b
  {
  }

  lemma OneMore(ops: seq<Op>, op: Op, b: Bucket, tree: Tree, now: int)
    requires Layered(ops, b, tree, now) && !Finished(ops)
    requires op.Put? ==> op.name in tree.files
    requires op.Delete? ==> op.name in Stale(b, tree, now)
    requires op.Record? ==> op.ledger == NewLedger(b, tree, now)
    requires op.Record? ==> forall f :: f in Stale(b, tree, now) ==> Delete(f) in ops
    requires forall f :: f in tree.files && Rank(PhaseOf(f)) < Step(op) ==> Put(f) in ops
    ensures Layered(ops + [op], b, tree, now)
    ensures Replay(b, ops + [op], tree) == Done(Replay(b, ops, tree), op, tree)
  {
    var more := ops + [op];
    assert more[..|ops|] == ops;
    forall k | 0 <= k < |more| ensures InPlace(more, k, b, tree, now) {
      if k < |ops| {
        assert InPlace(ops, k, b, tree, now) && more[..k] == ops[..k];
      } else if ops != [] {
        assert InPlace(ops, |ops| - 1, b, tree, now);
      }
    }
  }

  lemma LayeredPrefix(ops: seq<Op>, n: nat, b: Bucket, tree: Tree, now: int)
    requires n <= |ops| && Layered(ops, b, tree, now)
    ensures Layered(ops[..n], b, tree, now)
  {
    forall k | 0 <= k < n ensures InPlace(ops[..n], k, b, tree, now) {
      assert InPlace(ops, k, b, tree, now) && ops[..n][..k] == ops[..k];
    }
  }

  /** An unfinished run adds tree files and drops stale ones; its ledger is the old one
      unless the tree itself brought a manifest file. */
  lemma {:induction false} ReplayFiles(ops: seq<Op>, b: Bucket, tree: Tree, now: int)
    requires Layered(ops, b, tree, now) && !Finished(ops)
    ensures var after := Replay(b, ops, tree);
            && (forall f :: f in after.files <==> Put(f) in ops || (f in b.files && Delete(f) !in ops))
            && (after.ledger == b.ledger || (MANIFEST in tree.files && after.ledger == tree.ledger))
  {
    if ops != [] {
      var n := |ops| - 1;
      LayeredPrefix(ops, n, b, tree, now);
      assert InPlace(ops, n, b, tree, now);
      assert n > 0 ==> !ops[n - 1].Record?;
      ReplayFiles(ops[..n], b, tree, now);
      assert ops == ops[..n] + [ops[n]];
      assert forall f :: f in tree.files && Put(f) in ops ==> f !in Stale(b, tree, now);
      forall f | Put(f) in ops ensures f in tree.files {
        PutsFromTree(ops, f, b, tree, now);
      }
    }
  }

  lemma PutsFromTree(ops: seq<Op>, f: string, b: Bucket, tree: Tree, now: int)
    requires Layered(ops, b, tree, now)
    ensures Put(f) in ops ==> f in tree.files
    ensures Delete(f) in ops ==> f in Stale(b, tree, now)
  {
    hide Stale;
    if Put(f) in ops {
      var k :| 0 <= k < |ops| && ops[k] == Put(f);
      assert InPlace(ops, k, b, tree, now);
    }
    if Delete(f) in ops {
      var k :| 0 <= k < |ops| && ops[k] == Delete(f);
      assert InPlace(ops, k, b, tree, now);
    }
  }

  /** A run that reached the manifest leaves exactly the completed bucket. */
  lemma FinishedIsCompleted(ops: seq<Op>, b: Bucket, tree: Tree, now: int)
    requires Layered(ops, b, tree, now) && Finished(ops)
    ensures Replay(b, ops, tree) == Completed(b, tree, now)
  {
    var n := |ops| - 1;
    LayeredPrefix(ops, n, b, tree, now);
    assert InPlace(ops, n, b, tree, now);
    ReplayFiles(ops[..n], b, tree, now);
    forall f ensures Put(f) in ops[..n] <==> f in tree.files
             ensures Delete(f) in ops[..n] <==> f in Stale(b, tree, now)
    {
      PutsFromTree(ops[..n], f, b, tree, now);
    }
    assert Replay(b, ops, tree).files == Completed(b, tree, now).files;
  }

  /** At every instant of a run: once a file of one phase is up, every tree file of an
      earlier phase is in the bucket and stays there. */
  lemma NothingNamedIsMissing(ops: seq<Op>, at: nat, up: string, f: string, b: Bucket, tree: Tree, now: int)
    requires Layered(ops, b, tree, now) && at <= |ops| && Put(up) in ops[..at]
    requires f in tree.files && Rank(PhaseOf(f)) < Rank(PhaseOf(up))
    ensures f in Replay(b, ops[..at], tree).files
  {
    hide Stale, PhaseOf;
    LayeredPrefix(ops, at, b, tree, now);
    var seen := ops[..at];
    var k :| 0 <= k < at && seen[k] == Put(up);
    assert InPlace(seen, k, b, tree, now);
    if Finished(seen) {
      FinishedIsCompleted(seen, b, tree, now);
      StaleIsRemoved(f, b, tree, now);
    } else {
      ReplayFiles(seen, b, tree, now);
    }
  }

  lemma StaleIsRemoved(f: string, b: Bucket, tree: Tree, now: int)
    ensures f in tree.files ==> f !in Stale(b, tree, now)
  {
  }

  /** Entry points go up last: by the time one is put, every tree file that is none has been
      put, and stands in the bucket from then on. */
  lemma EntryPointsComeLast(ops: seq<Op>, k: nat, at: nat, f: string, b: Bucket, tree: Tree, now: int)
    requires Layered(ops, b, tree, now) && k < at <= |ops| && ops[k].Put? && MatchesAny(ENTRY_POINTS, ops[k].name)
    requires f in tree.files && !MatchesAny(ENTRY_POINTS, f)
    ensures Put(f) in ops[..k] && f in Replay(b, ops[..at], tree).files
  {
    hide MatchesAny, Replay;
    assert InPlace(ops, k, b, tree, now) && ops[..at][k] == ops[k];
    NothingNamedIsMissing(ops, at, ops[k].name, f, b, tree, now);
  }

  /** Metadata goes up after packages: by the time a file that is neither a package nor an entry
      point is put, every package of the tree has been put, and stands in the bucket from then
      on. */
  lemma MetadataFollowsPackages(ops: seq<Op>, k: nat, at: nat, f: string, b: Bucket, tree: Tree, now: int)
    requires Layered(ops, b, tree, now) && k < at <= |ops| && ops[k].Put?
    requires !MatchesAny(ENTRY_POINTS, ops[k].name) && !MatchesAny(PACKAGE_FILES, ops[k].name)
    requires f in tree.files && MatchesAny(PACKAGE_FILES, f) && !MatchesAny(ENTRY_POINTS, f)
    ensures Put(f) in ops[..k] && f in Replay(b, ops[..at], tree).files
  {
    hide MatchesAny, Replay;
    assert InPlace(ops, k, b, tree, now) && ops[..at][k] == ops[k];
    NothingNamedIsMissing(ops, at, ops[k].name, f, b, tree, now);
  }

  lemma {:induction false} GlobSame(t: string)
    requires '*' !in t
    ensures Glob(t, t)
  {
    if t != "" { GlobSame(t[1..]); }
  }

  lemma {:induction false} GlobOneStar(head: string, x: string, tail: string)
    requires '*' !in head && '*' !in tail && '/' !in x
    ensures Glob(head + "*" + tail, head + x + tail)
    decreases |head| + |x|
  {
    var p, s := head + "*" + tail, head + x + tail;
    if head != "" {
      GlobOneStar(head[1..], x, tail);
      assert p[1..] == head[1..] + "*" + tail && s[1..] == head[1..] + x + tail;
    } else if x != "" {
      GlobOneStar(head, x[1..], tail);
      assert s[1..] == head + x[1..] + tail && s[0] == x[0] && x[0] in x;
    } else {
      assert p[1..] == tail && s == tail;
      GlobSame(tail);
    }
  }

  predicate EndsWith(s: string, t: string) { |t| <= |s| && s[|s| - |t|..] == t }

  /** What stands after a pattern's last star ends every path that matches it. */
  lemma {:induction false} GlobEnd(p: string, s: string, t: string)
    requires Glob(p, s) && EndsWith(p, t) && '*' !in t
    ensures EndsWith(s, t)
    decreases |p| + |s|
  {
    if |t| == |p| {
      assert p == t;
      GlobNoStar(t, s);
    } else {
      assert EndsWith(p[1..], t);
      if p[0] == '*' && !Glob(p[1..], s) { GlobEnd(p, s[1..], t); }
      else if p[0] == '*' { GlobEnd(p[1..], s, t); }
      else { GlobEnd(p[1..], s[1..], t); }
    }
  }

  lemma {:induction false} GlobNoStar(t: string, s: string)
    requires Glob(t, s) && '*' !in t
    ensures s == t
  {
    if t != "" { GlobNoStar(t[1..], s[1..]); }
  }

  lemma MatchesEnd(pattern: string, path: string, t: string)
    requires Matches(pattern, path) && EndsWith(pattern, t) && '*' !in t && |t| < |pattern|
    ensures EndsWith(path, t)
  {
    hide Glob;
    if pattern[0] == '/' {
      GlobEnd(pattern[1..], path, t);
    } else if Glob(pattern, path) {
      GlobEnd(pattern, path, t);
    } else {
      var i :| 0 <= i < |path| && path[i] == '/' && Glob(pattern, path[i + 1..]);
      GlobEnd(pattern, path[i + 1..], t);
    }
  }

  const DEB := "deb/sofka.deb"
  const INDEX := "deb/dists/stable/Packages"
  const RELEASE := "deb/dists/stable/InRelease"

  lemma ReleaseText()
    ensures "deb/dists/" + "*" + "/InRelease" == "deb/dists/*/InRelease"
    ensures "deb/dists/" + "stable" + "/InRelease" == RELEASE
  {
  }

  lemma ReleasePattern()
    ensures "/" + "deb/dists/*/InRelease" == "/deb/dists/*/InRelease"
    ensures "/deb/dists/*/InRelease" in ENTRY_POINTS
  {
    assert ENTRY_POINTS[0] == "/deb/dists/*/InRelease";
  }

  lemma ReleaseIsEntryPoint()
    ensures MatchesAny(ENTRY_POINTS, RELEASE)
  {
    hide Glob, Matches;
    ReleaseText();
    ReleasePattern();
    GlobOneStar("deb/dists/", "stable", "/InRelease");
    AnchoredMatches("deb/dists/*/InRelease", RELEASE);
  }

  lemma AnchoredMatches(p: string, path: string)
    requires Glob(p, path)
    ensures Matches("/" + p, path)
  {
    assert ("/" + p)[1..] == p;
  }

  lemma DebIsPackage()
    ensures MatchesAny(PACKAGE_FILES, DEB)
  {
    GlobOneStar("", "sofka", ".deb");
    assert "" + "*" + ".deb" == "*.deb" && "" + "sofka" + ".deb" == DEB[4..];
    assert DEB[3] == '/' && PACKAGE_FILES[0] in PACKAGE_FILES && Matches(PACKAGE_FILES[0], DEB);
  }

  function LastTwo(s: string): string
    requires |s| >= 2
  {
    s[|s| - 2..]
  }

  const PACKAGE_ENDINGS := ["eb", "pm", "pk", "st", "ig"]

  lemma NoPackage(path: string)
    requires |path| >= 2 && LastTwo(path) !in PACKAGE_ENDINGS
    ensures !MatchesAny(PACKAGE_FILES, path)
  {
    hide Glob, Matches;
    if p :| p in PACKAGE_FILES && Matches(p, path) {
      PackageEndings(p);
      MatchesEnd(p, path, LastTwo(p));
    }
  }

  lemma PackageEndings(p: string)
    requires p in PACKAGE_FILES
    ensures |p| > 2 && LastTwo(p) in PACKAGE_ENDINGS && '*' !in LastTwo(p)
  {
    var k :| 0 <= k < 5 && p == PACKAGE_FILES[k];
    PackageEnding(k);
  }

  lemma PackageEnding(k: nat)
    requires k < 5
    ensures var p := PACKAGE_FILES[k]; |p| > 2 && LastTwo(p) == PACKAGE_ENDINGS[k] && '*' !in LastTwo(p)
  {
  }

  lemma {:induction false} GlobStart(p: string, s: string)
    requires Glob(p, s) && p != "" && p[0] != '*'
    ensures s != "" && s[0] == p[0]
  {
  }

  lemma NoEntryPoint(path: string)
    requires |path| >= 2 && path[0] == 'd' && LastTwo(path) != "se"
    ensures !MatchesAny(ENTRY_POINTS, path)
  {
    hide Glob;
    if p :| p in ENTRY_POINTS && Matches(p, path) {
      EntryPointStarts(p);
      GlobStart(p[1..], path);
      assert EndsWith(p, "se");
      MatchesEnd(p, path, "se");
    }
  }

  lemma EntryPointStarts(p: string)
    requires p in ENTRY_POINTS
    ensures |p| > 2 && p[0] == '/' && p[1] != '*' && (p[1] == 'd' ==> EndsWith(p, "se"))
  {
  }

  /** A Debian repository: whatever else the run has done, when the release file goes up its
      package and its index have gone up, and when the index goes up its package has. */
  lemma DebianOrder(ops: seq<Op>, k: nat, b: Bucket, tree: Tree, now: int)
    requires Layered(ops, b, tree, now) && k < |ops| && {DEB, INDEX, RELEASE} <= tree.files
    ensures ops[k] == Put(RELEASE) ==> Put(DEB) in ops[..k] && Put(INDEX) in ops[..k]
    ensures ops[k] == Put(INDEX) ==> Put(DEB) in ops[..k]
  {
    hide Layered, MatchesAny;
    ReleaseIsEntryPoint();
    DebIsPackage();
    NoEntryPoint(DEB);
    NoEntryPoint(INDEX);
    NoPackage(INDEX);
    if ops[k] == Put(RELEASE) {
      EntryPointsComeLast(ops, k, |ops|, DEB, b, tree, now);
      EntryPointsComeLast(ops, k, |ops|, INDEX, b, tree, now);
    }
    if ops[k] == Put(INDEX) { MetadataFollowsPackages(ops, k, |ops|, DEB, b, tree, now); }
  }

  /** The manifest of a finished run names exactly the bucket's files. */
  lemma LedgerNamesTheBucket(b: Bucket, tree: Tree, now: int)
    ensures var after := Completed(b, tree, now);
            after.ledger.Keys + {MANIFEST} == after.files && Recorded(after) == after.ledger
  {
  }

  // ----- whole histories -----------------------------------------------------------------

  /** One run and how far it got. */
  datatype Run = Run(tree: Tree, now: int, ops: seq<Op>)

  function After(start: Bucket, runs: seq<Run>): Bucket {
    if runs == [] then start
    else
      var last := runs[|runs| - 1];
      Replay(After(start, runs[..|runs| - 1]), last.ops, last.tree)
  }

  /** Runs follow one another on a clock that does not go back; an interrupted run's tree
      holds no file under the manifest's name. */
  ghost predicate History(start: Bucket, runs: seq<Run>) {
    && (forall i, j :: 0 <= i < j < |runs| ==> runs[i].now <= runs[j].now)
    && (forall i :: 0 <= i < |runs| ==> Layered(runs[i].ops, After(start, runs[..i]), runs[i].tree, runs[i].now))
    && (forall i :: 0 <= i < |runs| ==> Finished(runs[i].ops) || MANIFEST !in runs[i].tree.files)
  }

  /** Run `j` is the one that recorded `f`: it finished, and from it on no finished run
      listed the file. */
  ghost predicate LeftAtRun(runs: seq<Run>, f: string, j: int) {
    && 0 <= j < |runs| && Finished(runs[j].ops)
    && forall k :: j <= k < |runs| && Finished(runs[k].ops) ==> f !in runs[k].tree.files
  }

  /** Every recorded time is that of a run at which the file had left the indexes. */
  ghost predicate LedgerTellsRuns(b: Bucket, runs: seq<Run>) {
    forall f :: f in Recorded(b) && Recorded(b)[f].Some? ==>
      exists j :: 0 <= j < |runs| && LeftAtRun(runs, f, j) && runs[j].now == Recorded(b)[f].value
  }

  lemma HistoryPrefix(start: Bucket, runs: seq<Run>, n: nat)
    requires History(start, runs) && n <= |runs|
    ensures History(start, runs[..n])
  {
    forall i | 0 <= i < n ensures runs[..n][i] == runs[i] && runs[..n][..i] == runs[..i] {
    }
  }

  lemma LeftStaysLeft(front: seq<Run>, run: Run, f: string, j: int)
    requires LeftAtRun(front, f, j) && (Finished(run.ops) ==> f !in run.tree.files)
    ensures LeftAtRun(front + [run], f, j) && (front + [run])[j] == front[j]
  {
    hide Finished;
  }

  /** The time a finished run holds a file against: recorded by it or by an earlier run. */
  lemma LeftTellsRun(b: Bucket, front: seq<Run>, run: Run, f: string) returns (j: int)
    requires LedgerTellsRuns(b, front) && Finished(run.ops) && f !in run.tree.files
    ensures 0 <= j <= |front| && LeftAtRun(front + [run], f, j)
    ensures (front + [run])[j].now == LeftAt(Recorded(b), f, run.now)
  {
    hide Finished, Recorded;
    var was := Recorded(b);
    if f in was && was[f].Some? && was[f].value != 0 {
      j :| 0 <= j < |front| && LeftAtRun(front, f, j) && front[j].now == was[f].value;
      LeftStaysLeft(front, run, f, j);
    } else {
      j := |front|;
    }
  }

  lemma {:induction false} LedgerAlwaysTellsRuns(start: Bucket, runs: seq<Run>)
    requires MANIFEST !in start.files && History(start, runs)
    ensures LedgerTellsRuns(After(start, runs), runs)
  {
    if runs == [] { return; }
    var n := |runs| - 1;
    var front, run := runs[..n], runs[n];
    HistoryPrefix(start, runs, n);
    LedgerAlwaysTellsRuns(start, front);
    StepTellsRuns(After(start, front), front, run);
    assert front + [run] == runs;
  }

  lemma StepTellsRuns(b: Bucket, front: seq<Run>, run: Run)
    requires LedgerTellsRuns(b, front) && Layered(run.ops, b, run.tree, run.now)
    requires Finished(run.ops) || MANIFEST !in run.tree.files
    ensures LedgerTellsRuns(Replay(b, run.ops, run.tree), front + [run])
  {
    hide Stale, LeftAt, Layered, Replay, LeftAtRun;
    var after, runs := Replay(b, run.ops, run.tree), front + [run];
    if Finished(run.ops) {
      FinishedIsCompleted(run.ops, b, run.tree, run.now);
      forall f | f in Recorded(after) && Recorded(after)[f].Some?
        ensures exists j :: 0 <= j < |runs| && LeftAtRun(runs, f, j) && runs[j].now == Recorded(after)[f].value
      {
        var j := LeftTellsRun(b, front, run, f);
      }
    } else {
      UnfinishedLedger(run.ops, b, run.tree, run.now);
      hide Recorded;
      forall f | f in Recorded(after) && Recorded(after)[f].Some?
        ensures exists j :: 0 <= j < |runs| && LeftAtRun(runs, f, j) && runs[j].now == Recorded(after)[f].value
      {
        var j :| 0 <= j < |front| && LeftAtRun(front, f, j) && front[j].now == Recorded(b)[f].value;
        LeftStaysLeft(front, run, f, j);
      }
    }
  }

  lemma UnfinishedLedger(ops: seq<Op>, b: Bucket, tree: Tree, now: int)
    requires Layered(ops, b, tree, now) && !Finished(ops) && MANIFEST !in tree.files
    ensures Recorded(Replay(b, ops, tree)) == Recorded(b)
  {
    hide LeftAt;
    ReplayFiles(ops, b, tree, now);
    PutsFromTree(ops, MANIFEST, b, tree, now);
  }

  /** Retention over every history, interrupted runs included: a run takes a file out of
      the bucket only when some finished run more than RETENTION ago found it gone from
      the indexes and no finished run has listed it since. */
  lemma RetentionIsKept(start: Bucket, runs: seq<Run>, f: string)
    requires MANIFEST !in start.files && History(start, runs) && runs != []
    requires f in After(start, runs[..|runs| - 1]).files && f !in After(start, runs).files
    ensures var n := |runs| - 1;
            f !in runs[n].tree.files
            && exists j :: 0 <= j < n && runs[n].now - runs[j].now > RETENTION && LeftAtRun(runs, f, j)
  {
    hide Layered, Replay, Recorded, Finished, LeftAtRun, LedgerTellsRuns;
    var n := |runs| - 1;
    var front, run := runs[..n], runs[n];
    HistoryPrefix(start, runs, n);
    LedgerAlwaysTellsRuns(start, front);
    var b := After(start, front);
    OnlyStaleLeave(run.ops, b, run.tree, run.now, f);
    var j := StaleTellsRun(b, front, run, f);
    assert front + [run] == runs;
  }

  lemma StaleTellsRun(b: Bucket, front: seq<Run>, run: Run, f: string) returns (j: int)
    requires LedgerTellsRuns(b, front) && f !in run.tree.files
    requires run.now - LeftAt(Recorded(b), f, run.now) > RETENTION
    ensures 0 <= j < |front| && run.now - front[j].now > RETENTION && LeftAtRun(front + [run], f, j)
  {
    hide Finished, Recorded;
    j :| 0 <= j < |front| && LeftAtRun(front, f, j) && front[j].now == Recorded(b)[f].value;
    LeftStaysLeft(front, run, f, j);
  }

  /** In particular no finished run listed the file within the retention time. */
  lemma DeletedWasLongUnlisted(start: Bucket, runs: seq<Run>, f: string, i: nat)
    requires MANIFEST !in start.files && History(start, runs) && runs != []
    requires f in After(start, runs[..|runs| - 1]).files && f !in After(start, runs).files
    requires i < |runs| && Finished(runs[i].ops) && f in runs[i].tree.files
    ensures runs[|runs| - 1].now - runs[i].now > RETENTION
  {
    hide After, Layered, Finished;
    RetentionIsKept(start, runs, f);
    var j :| 0 <= j < |runs| - 1 && runs[|runs| - 1].now - runs[j].now > RETENTION && LeftAtRun(runs, f, j);
    assert i < j;
  }

  lemma OnlyStaleLeave(ops: seq<Op>, b: Bucket, tree: Tree, now: int, f: string)
    requires Layered(ops, b, tree, now)
    ensures f in b.files && f !in Replay(b, ops, tree).files ==>
      f !in tree.files && now - LeftAt(Recorded(b), f, now) > RETENTION
  {
    hide Layered;
    if Finished(ops) {
      FinishedIsCompleted(ops, b, tree, now);
    } else {
      ReplayFiles(ops, b, tree, now);
      PutsFromTree(ops, f, b, tree, now);
    }
  }

  // ----- histories of finished runs, exactly -------------------------------------------------

  ghost predicate AllFinished(runs: seq<Run>) {
    forall i :: 0 <= i < |runs| ==> Finished(runs[i].ops) && runs[i].now != 0
  }

  /** Run `i` listed the file (run -1 stands for the bucket found at the start). */
  predicate Listed(start: Bucket, runs: seq<Run>, f: string, i: int)
    requires -1 <= i < |runs|
  {
    if i == -1 then f in start.files else f in runs[i].tree.files
  }

  /** Listed by run `i` and not dropped for too long: the retention clock starts at the
      first run after it. */
  predicate Held(start: Bucket, runs: seq<Run>, f: string, i: int)
    requires -1 <= i < |runs|
  {
    Listed(start, runs, f, i) && (i + 1 < |runs| ==> runs[|runs| - 1].now - runs[i + 1].now <= RETENTION)
  }

  /** What the ledger says of a file last listed by run `i`. */
  ghost predicate Tells(b: Bucket, start: Bucket, runs: seq<Run>, f: string, i: int)
    requires -1 <= i < |runs|
  {
    && (f in b.files <==> Held(start, runs, f, i))
    && (f in b.files && runs != [] ==>
          f in b.ledger && b.ledger[f] == if i + 1 < |runs| then Some(runs[i + 1].now) else None)
  }

  ghost predicate LastListed(start: Bucket, runs: seq<Run>, f: string, i: int)
    requires -1 <= i < |runs|
  {
    Listed(start, runs, f, i) && forall j :: i < j < |runs| ==> !Listed(start, runs, f, j)
  }

  ghost predicate Explained(b: Bucket, start: Bucket, runs: seq<Run>, f: string) {
    || (f !in b.files && forall i :: -1 <= i < |runs| ==> !Listed(start, runs, f, i))
    || exists i :: -1 <= i < |runs| && LastListed(start, runs, f, i) && Tells(b, start, runs, f, i)
  }

  lemma {:induction false} EveryFileIsExplained(start: Bucket, runs: seq<Run>, f: string)
    requires MANIFEST !in start.files && f != MANIFEST && History(start, runs) && AllFinished(runs)
    ensures Explained(After(start, runs), start, runs, f)
    ensures MANIFEST in After(start, runs).files <==> runs != []
  {
    if runs == [] {
      if f in start.files { assert LastListed(start, runs, f, -1) && Tells(start, start, runs, f, -1); }
      return;
    }
    var n := |runs| - 1;
    var front, run := runs[..n], runs[n];
    HistoryPrefix(start, runs, n);
    EveryFileIsExplained(start, front, f);
    var b := After(start, front);
    FinishedIsCompleted(run.ops, b, run.tree, run.now);
    ExplainNext(b, start, front, run, f);
    assert front + [run] == runs;
  }

  lemma ExplainNext(b: Bucket, start: Bucket, front: seq<Run>, run: Run, f: string)
    requires f != MANIFEST && Explained(b, start, front, f) && run.now != 0
    requires MANIFEST in b.files <==> front != []
    requires forall i :: 0 <= i < |front| ==> front[i].now <= run.now && front[i].now != 0
    ensures Explained(Completed(b, run.tree, run.now), start, front + [run], f)
  {
    var runs, after := front + [run], Completed(b, run.tree, run.now);
    forall i | -1 <= i < |front| ensures Listed(start, runs, f, i) == Listed(start, front, f, i) {
    }
    if f in run.tree.files {
      assert LastListed(start, runs, f, |front|) && Tells(after, start, runs, f, |front|);
    } else if i :| -1 <= i < |front| && LastListed(start, front, f, i) && Tells(b, start, front, f, i) {
      TellNext(b, start, front, run, f, i);
      assert LastListed(start, runs, f, i);
    }
  }

  lemma TellNext(b: Bucket, start: Bucket, front: seq<Run>, run: Run, f: string, i: int)
    requires -1 <= i < |front| && f != MANIFEST && f !in run.tree.files && run.now != 0
    requires LastListed(start, front, f, i) && Tells(b, start, front, f, i)
    requires MANIFEST in b.files <==> front != []
    requires forall k :: 0 <= k < |front| ==> front[k].now <= run.now && front[k].now != 0
    ensures Tells(Completed(b, run.tree, run.now), start, front + [run], f, i)
  {
    var runs := front + [run];
    assert runs[i + 1].now == if i + 1 < |front| then front[i + 1].now else run.now;
    if f in b.files {
      assert LeftAt(Recorded(b), f, run.now) == runs[i + 1].now;
    }
  }

  /** After finished runs the bucket holds exactly the manifest and the files that some
      run listed and that have not been out of the index for longer than RETENTION. */
  lemma BucketIsExactlyTheRetained(start: Bucket, runs: seq<Run>, f: string)
    requires MANIFEST !in start.files && f != MANIFEST && History(start, runs) && AllFinished(runs)
    ensures f in After(start, runs).files <==> exists i :: -1 <= i < |runs| && Held(start, runs, f, i)
  {
    EveryFileIsExplained(start, runs, f);
    var b := After(start, runs);
    if last :| -1 <= last < |runs| && LastListed(start, runs, f, last) && Tells(b, start, runs, f, last) {
      if i :| -1 <= i < |runs| && Held(start, runs, f, i) {
        assert i <= last;
        assert Held(start, runs, f, last);
      }
    }
  }

  // ----- what an interrupted run does to the clock ---------------------------------------------

  lemma InterruptedRunKeepsTheLedger(start: Bucket, runs: seq<Run>)
    requires History(start, runs) && runs != [] && !Finished(runs[|runs| - 1].ops)
    ensures Recorded(After(start, runs)) == Recorded(After(start, runs[..|runs| - 1]))
  {
    hide Layered, Replay, Recorded, Finished;
    var n := |runs| - 1;
    UnfinishedLedger(runs[n].ops, After(start, runs[..n]), runs[n].tree, runs[n].now);
  }

  lemma {:induction false} InterruptedRunsKeepTheLedger(start: Bucket, runs: seq<Run>, i: nat)
    requires History(start, runs) && i <= |runs|
    requires forall k :: i <= k < |runs| ==> !Finished(runs[k].ops)
    ensures Recorded(After(start, runs)) == Recorded(After(start, runs[..i]))
  {
    hide History, After, Recorded, Finished;
    if i == |runs| {
      assert runs[..i] == runs;
      return;
    }
    var n := |runs| - 1;
    HistoryPrefix(start, runs, n);
    InterruptedRunsKeepTheLedger(start, runs[..n], i);
    assert runs[..n][..i] == runs[..i];
    InterruptedRunKeepsTheLedger(start, runs);
  }

  /** The next finished run takes out a file that is still up exactly when its tree does not
      list the file and the manifest, as it stood before the interrupted runs, held a time
      for the file that is too old by now. What the interrupted runs listed plays no part. */
  lemma InterruptedListingIsIgnored(start: Bucket, runs: seq<Run>, i: nat, f: string)
    requires History(start, runs) && i < |runs| && f != MANIFEST
    requires forall k :: i <= k < |runs| - 1 ==> !Finished(runs[k].ops)
    requires Finished(runs[|runs| - 1].ops) && f in After(start, runs[..|runs| - 1]).files
    ensures var was, last := Recorded(After(start, runs[..i])), runs[|runs| - 1];
            f !in After(start, runs).files
            <==> && f !in last.tree.files
                 && f in was && was[f].Some? && was[f].value != 0 && last.now - was[f].value > RETENTION
  {
    hide Layered, Replay, Recorded, Finished;
    var n := |runs| - 1;
    HistoryPrefix(start, runs, n);
    InterruptedRunsKeepTheLedger(start, runs[..n], i);
    assert runs[..n][..i] == runs[..i];
    FinishedIsCompleted(runs[n].ops, After(start, runs[..n]), runs[n].tree, runs[n].now);
  }

  function Gap(f: string): seq<Run> {
    var with, without := Tree({f}, map[]), Tree({}, map[]);
    [Run(with, 1, [Put(f), Record(map[f := None])]),
     Run(without, 2, [Record(map[f := Some(2)])]),
     Run(with, 2 + RETENTION, [Put(f)]),
     Run(without, 3 + RETENTION, [Delete(f), Record(map[])])]
  }

  lemma GapStates(f: string)
    requires f != MANIFEST
    ensures var start := Bucket({}, map[]);
      && After(start, Gap(f)[..0]) == start
      && After(start, Gap(f)[..1]) == Bucket({f, MANIFEST}, map[f := None])
      && After(start, Gap(f)[..2]) == Bucket({f, MANIFEST}, map[f := Some(2)])
      && After(start, Gap(f)[..3]) == Bucket({f, MANIFEST}, map[f := Some(2)])
      && After(start, Gap(f)) == Bucket({MANIFEST}, map[])
  {
    var start, runs, with, without := Bucket({}, map[]), Gap(f), Tree({f}, map[]), Tree({}, map[]);
    assert runs[..4] == runs;
    assert forall k: nat :: k < 4 ==> runs[..k + 1][..k] == runs[..k];
    TwoOps(start, Put(f), Record(map[f := None]), with);
    OneOp(After(start, runs[..1]), Record(map[f := Some(2)]), without);
    OneOp(After(start, runs[..2]), Put(f), with);
    TwoOps(After(start, runs[..3]), Delete(f), Record(map[]), without);
  }

  lemma OneOp(b: Bucket, op: Op, tree: Tree)
    ensures Replay(b, [op], tree) == Done(b, op, tree)
  {
    assert [op][..0] == [];
  }

  lemma TwoOps(b: Bucket, op: Op, after: Op, tree: Tree)
    ensures Replay(b, [op, after], tree) == Done(Done(b, op, tree), after, tree)
  {
    assert [op, after][..1] == [op];
    OneOp(b, op, tree);
  }

  lemma LayeredOne(op: Op, b: Bucket, tree: Tree, now: int)
    requires op.Put? ==> tree.files == {op.name}
    requires op.Delete? ==> op.name in Stale(b, tree, now)
    requires op.Record? ==> op.ledger == NewLedger(b, tree, now) && Stale(b, tree, now) == {}
    requires !op.Put? ==> tree.files == {}
    ensures Layered([op], b, tree, now)
  {
    hide Layered, PhaseOf, Stale;
    NothingDone(b, tree, now);
    OneMore([], op, b, tree, now);
    assert [] + [op] == [op];
  }

  lemma LayeredTwo(op: Op, ledger: Ledger, b: Bucket, tree: Tree, now: int)
    requires Layered([op], b, tree, now) && !op.Record? && ledger == NewLedger(b, tree, now)
    requires tree.files == if op.Put? then {op.name} else {}
    requires Stale(b, tree, now) == if op.Delete? then {op.name} else {}
    ensures Layered([op, Record(ledger)], b, tree, now)
  {
    hide Layered, PhaseOf, Stale;
    OneMore([op], Record(ledger), b, tree, now);
    assert [op] + [Record(ledger)] == [op, Record(ledger)];
  }

  lemma GapIsLayered(f: string, i: nat)
    requires f != MANIFEST && i < 4
    ensures Layered(Gap(f)[i].ops, After(Bucket({}, map[]), Gap(f)[..i]), Gap(f)[i].tree, Gap(f)[i].now)
  {
    hide Layered, After;
    GapStates(f);
    var b, run := After(Bucket({}, map[]), Gap(f)[..i]), Gap(f)[i];
    LayeredOne(run.ops[0], b, run.tree, run.now);
    if i == 0 || i == 3 {
      LayeredTwo(run.ops[0], run.ops[1].ledger, b, run.tree, run.now);
    }
  }

  /** An instance: a file that comes back in a run that never rewrote the manifest keeps its
      old clock, so it can go one second later. */
  lemma InterruptedRunKeepsTheOldClock(f: string)
    requires f != MANIFEST
    ensures var start, runs := Bucket({}, map[]), Gap(f);
      && History(start, runs)
      && f in After(start, runs[..3]).files && f !in After(start, runs).files
      && runs[2].ops == [Put(f)] && runs[2].tree.files == {f} && runs[3].now - runs[2].now <= RETENTION
  {
    hide Layered;
    GapStates(f);
    forall i | 0 <= i < 4
      ensures Layered(Gap(f)[i].ops, After(Bucket({}, map[]), Gap(f)[..i]), Gap(f)[i].tree, Gap(f)[i].now)
    {
      GapIsLayered(f, i);
    }
  }
}
