/** JSON Pointers with `*` fan-out (src/adjacent.rs): decoding a pointer into
    segments, walking it forwards to list every string it reaches, and reading
    it back at a given vector of array indices. */
module Pointer {
  import opened Wrappers
  import opened Text

  datatype Json =
    | Null
    | Bool(b: bool)
    | Num(n: int)
    | Str(s: string)
    | Arr(items: seq<Json>)
    | Obj(fields: map<string, Json>)

  // ----- pointer text ----------------------------------------------------

  function Split(s: string, sep: char): (parts: seq<string>)
    ensures |parts| > 0
  {
    if s == "" then [""]
    else
      var rest := Split(s[1..], sep);
      if s[0] == sep then [""] + rest else [[s[0]] + rest[0]] + rest[1..]
  }

  /** Rust's `str::replace` for the two-character pattern `a b`. */
  function Replace(s: string, a: char, b: char, to: char): string {
    if s == "" then ""
    else if |s| >= 2 && s[0] == a && s[1] == b then [to] + Replace(s[2..], a, b, to)
    else [s[0]] + Replace(s[1..], a, b, to)
  }

  function DecodeAll(parts: seq<string>): seq<string> {
    if parts == [] then []
    else [Replace(Replace(parts[0], '~', '1', '/'), '~', '0', '~')] + DecodeAll(parts[1..])
  }

  function Segments(path: string): Option<seq<string>> {
    if path == "" || path[0] != '/' then None else Some(DecodeAll(Split(path[1..], '/')))
  }

  /** Section 4 of RFC 6901 as a decoder that reads each character once. */
  function Unescape(s: string): string {
    if s == "" then ""
    else if |s| >= 2 && s[0] == '~' && s[1] == '1' then ['/'] + Unescape(s[2..])
    else if |s| >= 2 && s[0] == '~' && s[1] == '0' then ['~'] + Unescape(s[2..])
    else [s[0]] + Unescape(s[1..])
  }

  /** Section 3 of RFC 6901: `~` is written `~0` and `/` is written `~1`. */
  function Escape(s: string): string {
    if s == "" then ""
    else (if s[0] == '~' then "~0" else if s[0] == '/' then "~1" else [s[0]]) + Escape(s[1..])
  }

  function EscapeAll(tokens: seq<string>): seq<string> {
    if tokens == [] then [] else [Escape(tokens[0])] + EscapeAll(tokens[1..])
  }

  function Join(parts: seq<string>): string
    requires parts != []
  {
    if |parts| == 1 then parts[0] else parts[0] + "/" + Join(parts[1..])
  }

  function EncodePointer(tokens: seq<string>): string {
    var escaped := EscapeAll(tokens);
    if escaped == [] then "" else "/" + Join(escaped)
  }

  /** The two successive replaces decode exactly as the one-pass reading does,
      on every string, well-formed or not. */
  lemma {:induction false} TwoReplacesAreOnePass(s: string)
    ensures Replace(Replace(s, '~', '1', '/'), '~', '0', '~') == Unescape(s)
  {
    if s == "" {
    } else if |s| >= 2 && s[0] == '~' && s[1] == '1' {
      TwoReplacesAreOnePass(s[2..]);
      var rest := Replace(s[2..], '~', '1', '/');
      assert (['/'] + rest)[1..] == rest;
    } else if |s| >= 2 && s[0] == '~' && s[1] == '0' {
      TwoReplacesAreOnePass(s[2..]);
      var rest := Replace(s[2..], '~', '1', '/');
      assert s[1..][1..] == s[2..];
      assert Replace(s, '~', '1', '/') == ['~'] + (['0'] + rest) == ['~', '0'] + rest;
      assert (['~', '0'] + rest)[2..] == rest;
    } else {
      TwoReplacesAreOnePass(s[1..]);
      var rest := Replace(s[1..], '~', '1', '/');
      assert ([s[0]] + rest)[1..] == rest;
    }
  }

  lemma UnescapeStep(c: char, e: string)
    ensures Unescape("~0" + e) == ['~'] + Unescape(e)
    ensures Unescape("~1" + e) == ['/'] + Unescape(e)
    ensures c != '~' ==> Unescape([c] + e) == [c] + Unescape(e)
  {
    assert ("~0" + e)[2..] == e && ("~1" + e)[2..] == e && ([c] + e)[1..] == e;
  }

  lemma {:induction false} UnescapeEscape(s: string)
    ensures Unescape(Escape(s)) == s && '/' !in Escape(s)
  {
    if s != "" {
      hide Unescape;
      UnescapeEscape(s[1..]);
      UnescapeStep(s[0], Escape(s[1..]));
    }
  }

  lemma {:induction false} SplitPrefix(a: string, rest: string)
    requires '/' !in a
    ensures Split(a, '/') == [a]
    ensures Split(a + "/" + rest, '/') == [a] + Split(rest, '/')
  {
    if a == "" {
      assert a + "/" + rest == ['/'] + rest;
    } else {
      SplitPrefix(a[1..], rest);
      assert (a + "/" + rest)[1..] == a[1..] + "/" + rest;
      assert [a[0]] + a[1..] == a;
    }
  }

  lemma {:induction false} SplitJoin(parts: seq<string>)
    requires parts != [] && forall p :: p in parts ==> '/' !in p
    ensures Split(Join(parts), '/') == parts
  {
    if |parts| == 1 {
      SplitPrefix(parts[0], "");
    } else {
      SplitJoin(parts[1..]);
      SplitPrefix(parts[0], Join(parts[1..]));
    }
  }

  lemma {:induction false} DecodeEscaped(tokens: seq<string>)
    ensures DecodeAll(EscapeAll(tokens)) == tokens
    ensures forall p :: p in EscapeAll(tokens) ==> '/' !in p
  {
    if tokens != [] {
      DecodeEscaped(tokens[1..]);
      UnescapeEscape(tokens[0]);
      TwoReplacesAreOnePass(Escape(tokens[0]));
      var rest := EscapeAll(tokens[1..]);
      assert ([Escape(tokens[0])] + rest)[1..] == rest;
    }
  }

  /** Decoding a pointer undoes encoding it, for every non-empty token list
      (the empty list encodes to "", which the decoder refuses). */
  lemma SegmentsOfEncoded(tokens: seq<string>)
    requires tokens != []
    ensures Segments(EncodePointer(tokens)) == Some(tokens)
  {
    DecodeEscaped(tokens);
    SplitJoin(EscapeAll(tokens));
    var body := Join(EscapeAll(tokens));
    assert ("/" + body)[1..] == body;
  }

  // ----- array indices ---------------------------------------------------

  const USIZE_MAX: nat := 0xFFFF_FFFF_FFFF_FFFF

  /** `str::parse::<usize>`: one optional leading `+`, at least one digit, no
      overflow. Leading zeros are accepted. */
  function ParseUsize(s: string): Option<nat> {
    var digits := if |s| > 0 && s[0] == '+' then s[1..] else s;
    var v := Decimal(digits);
    if digits != "" && v.Some? && v.value <= USIZE_MAX then v else None
  }

  function At(items: seq<Json>, i: nat): Option<Json> {
    if i < |items| then Some(items[i]) else None
  }

  /** One segment that takes no index: an object key or a literal array index. */
  function Child(node: Json, seg: string): Option<Json> {
    match node
    case Obj(fields) => if seg in fields then Some(fields[seg]) else None
    case Arr(items) =>
      var i := ParseUsize(seg);
      if i.Some? then At(items, i.value) else None
    case _ => None
  }

  predicate FansOut(node: Json, seg: string) {
    seg == "*" && node.Arr?
  }

  // ----- reading back at given indices -----------------------------------

  /** Follow `segs` from `node`, taking the next index at each fan-out. Returns
      the value reached and the indices left over. */
  function Walk(node: Json, segs: seq<string>, idx: seq<nat>): Option<(Json, seq<nat>)> {
    if segs == [] then Some((node, idx))
    else if FansOut(node, segs[0]) then
      if idx == [] then None
      else
        var child := At(node.items, idx[0]);
        if child.Some? then Walk(child.value, segs[1..], idx[1..]) else None
    else
      var child := Child(node, segs[0]);
      if child.Some? then Walk(child.value, segs[1..], idx) else None
  }

  function NodeAtSpec(obj: Json, segs: seq<string>, idx: seq<nat>): Option<Json> {
    var w := Walk(obj, segs, idx);
    if w.Some? then Some(w.value.0) else None
  }

  function ValueAt(obj: Json, segs: seq<string>, idx: seq<nat>): Option<string> {
    match NodeAtSpec(obj, segs, idx)
    case Some(Str(s)) => if s != "" then Some(s) else None
    case _ => None
  }

  /** The loop of `node_at`: one node and one index cursor, advanced segment by
      segment. */
  method NodeAt(obj: Json, segs: seq<string>, indices: seq<nat>) returns (found: Option<Json>)
    ensures found == NodeAtSpec(obj, segs, indices)
  {
    var node := obj;
    var used := 0;
    var i := 0;
    while i < |segs|
      invariant 0 <= i <= |segs| && 0 <= used <= |indices|
      invariant Walk(obj, segs, indices) == Walk(node, segs[i..], indices[used..])
    {
      var seg := segs[i];
      assert segs[i..][1..] == segs[i + 1..];
      var next: Option<Json>;
      if FansOut(node, seg) {
        if used == |indices| { return None; }
        next := At(node.items, indices[used]);
        assert indices[used..][1..] == indices[used + 1..];
        used := used + 1;
      } else {
        next := Child(node, seg);
      }
      if next.None? { return None; }
      node := next.value;
      i := i + 1;
    }
    return Some(node);
  }

  // ----- expanding forwards ----------------------------------------------

  datatype Found = Found(at: seq<nat>, name: string)

  function Expansion(node: Json, segs: seq<string>, taken: seq<nat>): seq<Found>
    decreases |segs|, 0
  {
    if segs == [] then (if node.Str? && node.s != "" then [Found(taken, node.s)] else [])
    else if FansOut(node, segs[0]) then Fan(node.items, segs[1..], taken, 0)
    else
      var child := Child(node, segs[0]);
      if child.Some? then Expansion(child.value, segs[1..], taken) else []
  }

  function Fan(items: seq<Json>, tail: seq<string>, taken: seq<nat>, i: nat): seq<Found>
    requires i <= |items|
    decreases |tail|, 1 + |items| - i
  {
    if i == |items| then []
    else Expansion(items[i], tail, taken + [i]) + Fan(items, tail, taken, i + 1)
  }

  /** The recursive walk with its two mutable accumulators: the indices taken so
      far, and the list of strings reached. */
  class Walker {
    var taken: seq<nat>
    var out: seq<Found>

    constructor ()
      ensures taken == [] && out == []
    {
      taken, out := [], [];
    }

    method Expand(node: Json, segs: seq<string>)
      modifies this
      ensures taken == old(taken)
      ensures out == old(out) + Expansion(node, segs, old(taken))
      decreases |segs|
    {
      if segs == [] {
        if node.Str? && node.s != "" {
          out := out + [Found(taken, node.s)];
        }
      } else if FansOut(node, segs[0]) {
        var items, tail := node.items, segs[1..];
        for i := 0 to |items|
          invariant taken == old(taken)
          invariant out + Fan(items, tail, taken, i) == old(out) + Fan(items, tail, taken, 0)
        {
          ghost var before := out;
          taken := taken + [i];
          Expand(items[i], tail);
          taken := taken[..|taken| - 1];
          var here := Expansion(items[i], tail, taken + [i]);
          var rest := Fan(items, tail, taken, i + 1);
          assert (before + here) + rest == before + (here + rest);
        }
      } else {
        var child := Child(node, segs[0]);
        if child.Some? {
          Expand(child.value, segs[1..]);
        }
      }
    }
  }

  lemma {:induction false} ExpansionKeepsPrefix(node: Json, segs: seq<string>, taken: seq<nat>, f: Found)
    ensures f in Expansion(node, segs, taken) ==> taken <= f.at
    decreases |segs|, 0
  {
    if segs == [] {
    } else if FansOut(node, segs[0]) {
      FanKeepsPrefix(node.items, segs[1..], taken, 0, f);
    } else if Child(node, segs[0]).Some? {
      ExpansionKeepsPrefix(Child(node, segs[0]).value, segs[1..], taken, f);
    }
  }

  lemma {:induction false} FanKeepsPrefix(items: seq<Json>, tail: seq<string>, taken: seq<nat>, i: nat, f: Found)
    requires i <= |items|
    ensures f in Fan(items, tail, taken, i) ==>
              taken <= f.at && |f.at| > |taken| && i <= f.at[|taken|] < |items|
    decreases |tail|, 1 + |items| - i
  {
    if i < |items| {
      ExpansionKeepsPrefix(items[i], tail, taken + [i], f);
      FanKeepsPrefix(items, tail, taken, i + 1, f);
      if taken + [i] <= f.at {
        assert f.at[..|taken|] == (taken + [i])[..|taken|] == taken;
        assert f.at[|taken|] == (taken + [i])[|taken|] == i;
      }
    }
  }

  lemma {:induction false} ExpansionIsWalk(node: Json, segs: seq<string>, taken: seq<nat>, idx: seq<nat>, s: string)
    ensures Found(taken + idx, s) in Expansion(node, segs, taken)
       <==> s != "" && Walk(node, segs, idx) == Some((Str(s), []))
    decreases |segs|, 0
  {
    if segs == [] {
      if taken + idx == taken {
        assert |taken + idx| == |taken| + |idx|;
      }
    } else if FansOut(node, segs[0]) {
      FanIsWalk(node.items, segs[1..], taken, 0, idx, s);
    } else {
      var child := Child(node, segs[0]);
      if child.Some? {
        ExpansionIsWalk(child.value, segs[1..], taken, idx, s);
      }
    }
  }

  lemma {:induction false} FanIsWalk(
    items: seq<Json>, tail: seq<string>, taken: seq<nat>, i: nat, idx: seq<nat>, s: string)
    requires i <= |items|
    ensures Found(taken + idx, s) in Fan(items, tail, taken, i)
       <==> idx != [] && i <= idx[0] < |items| && s != ""
            && Walk(items[idx[0]], tail, idx[1..]) == Some((Str(s), []))
    decreases |tail|, 1 + |items| - i
  {
    var f := Found(taken + idx, s);
    if i < |items| {
      FanIsWalk(items, tail, taken, i + 1, idx, s);
      ExpansionKeepsPrefix(items[i], tail, taken + [i], f);
      FanKeepsPrefix(items, tail, taken, i + 1, f);
      assert taken + [i] <= f.at ==> f.at[|taken|] == (taken + [i])[|taken|] == i;
      if idx != [] && idx[0] == i {
        ExpansionIsWalk(items[i], tail, taken + [i], idx[1..], s);
        assert taken + idx == taken + [i] + idx[1..];
      }
    }
  }

  /** `expand` lists exactly the index vectors that `node_at` consumes completely
      to reach a non-empty string. */
  lemma ExpandAgreesWithNodeAt(node: Json, segs: seq<string>, idx: seq<nat>, s: string)
    ensures Found(idx, s) in Expansion(node, segs, [])
       <==> s != "" && Walk(node, segs, idx) == Some((Str(s), []))
  {
    ExpansionIsWalk(node, segs, [], idx, s);
    assert [] + idx == idx;
  }

  /** Strictly lexicographically smaller with a first difference inside both, so
      neither vector is a prefix of the other. */
  ghost predicate Before(a: seq<nat>, b: seq<nat>) {
    exists k :: 0 <= k < |a| && k < |b| && a[..k] == b[..k] && a[k] < b[k]
  }

  /** The list is in strictly increasing order, so each vector occurs once and
      none is a prefix of another. */
  lemma {:induction false} ExpansionIsOrdered(node: Json, segs: seq<string>, taken: seq<nat>, i: nat, j: nat)
    requires i < j < |Expansion(node, segs, taken)|
    ensures Before(Expansion(node, segs, taken)[i].at, Expansion(node, segs, taken)[j].at)
    decreases |segs|, 0
  {
    if segs == [] {
    } else if FansOut(node, segs[0]) {
      FanIsOrdered(node.items, segs[1..], taken, 0, i, j);
    } else {
      ExpansionIsOrdered(Child(node, segs[0]).value, segs[1..], taken, i, j);
    }
  }

  lemma {:induction false} FanIsOrdered(
    items: seq<Json>, tail: seq<string>, taken: seq<nat>, k: nat, i: nat, j: nat)
    requires k <= |items| && i < j < |Fan(items, tail, taken, k)|
    ensures Before(Fan(items, tail, taken, k)[i].at, Fan(items, tail, taken, k)[j].at)
    decreases |tail|, 1 + |items| - k
  {
    var head := Expansion(items[k], tail, taken + [k]);
    var rest := Fan(items, tail, taken, k + 1);
    if j < |head| {
      ExpansionIsOrdered(items[k], tail, taken + [k], i, j);
    } else if i >= |head| {
      FanIsOrdered(items, tail, taken, k + 1, i - |head|, j - |head|);
    } else {
      ExpansionKeepsPrefix(items[k], tail, taken + [k], head[i]);
      FanKeepsPrefix(items, tail, taken, k + 1, rest[j - |head|]);
      var a, b := head[i].at, rest[j - |head|].at;
      assert a[|taken|] == (taken + [k])[|taken|] == k < b[|taken|];
      assert a[..|taken|] == (taken + [k])[..|taken|] == b[..|taken|];
    }
  }

  // ----- hits: a name with the fields that sit beside it ------------------

  datatype Hit = Hit(name: string, namespace: Option<string>, kind: Option<string>, group: Option<string>)

  function ReadString(obj: Json, segs: Option<seq<string>>, at: seq<nat>): Option<string> {
    if segs.Some? then ValueAt(obj, segs.value, at) else None
  }

  /** `group_path` keeps an empty string: it names the core group. */
  function ReadGroup(obj: Json, segs: Option<seq<string>>, at: seq<nat>): Option<string> {
    if segs.None? then None
    else match NodeAtSpec(obj, segs.value, at)
         case Some(Str(s)) => Some(s)
         case _ => None
  }

  function Optional(path: Option<string>): Option<seq<string>> {
    if path.Some? then Segments(path.value) else None
  }

  function HitOf(obj: Json, f: Found, ns: Option<string>, kind: Option<string>, group: Option<string>): Hit {
    Hit(f.name, ReadString(obj, Optional(ns), f.at), ReadString(obj, Optional(kind), f.at),
        ReadGroup(obj, Optional(group), f.at))
  }

  function PointerHits(
    obj: Json, path: string, ns: Option<string>, kind: Option<string>, group: Option<string>): (hits: seq<Hit>)
    ensures Segments(path).None? ==> hits == []
    ensures Segments(path).Some? ==>
              |hits| == |Expansion(obj, Segments(path).value, [])|
  {
    var segs := Segments(path);
    if segs.None? then []
    else
      var found := Expansion(obj, segs.value, []);
      seq(|found|, i requires 0 <= i < |found| => HitOf(obj, found[i], ns, kind, group))
  }

  lemma {:induction false} WalkCompose(node: Json, p: seq<string>, q: seq<string>, idx: seq<nat>)
    ensures Walk(node, p + q, idx)
         == var w := Walk(node, p, idx); if w.Some? then Walk(w.value.0, q, w.value.1) else None
  {
    if p == [] {
      assert p + q == q;
    } else {
      assert (p + q)[0] == p[0] && (p + q)[1..] == p[1..] + q;
      if FansOut(node, p[0]) {
        if idx != [] && idx[0] < |node.items| {
          WalkCompose(node.items[idx[0]], p[1..], q, idx[1..]);
        }
      } else if Child(node, p[0]).Some? {
        WalkCompose(Child(node, p[0]).value, p[1..], q, idx);
      }
    }
  }

  /** A second pointer that shares the starred prefix reads its field from the
      same array element the name came from. */
  lemma SharedPrefixReadsSameElement(
    obj: Json, prefix: seq<string>, own: seq<string>, beside: seq<string>, f: Found)
    requires f in Expansion(obj, prefix + own, [])
    ensures Walk(obj, prefix, f.at).Some?
    ensures var w := Walk(obj, prefix, f.at).value;
            && Walk(w.0, own, w.1) == Some((Str(f.name), []))
            && ValueAt(obj, prefix + beside, f.at) == ValueAt(w.0, beside, w.1)
  {
    ExpandAgreesWithNodeAt(obj, prefix + own, f.at, f.name);
    WalkCompose(obj, prefix, own, f.at);
    WalkCompose(obj, prefix, beside, f.at);
  }

  // ----- the same readings, from the document's own paths -----------------------

  /** One step into a document. */
  datatype Step = Key(name: string) | Index(i: nat)

  /** The value at a path of the document itself. */
  function Follow(node: Json, path: seq<Step>): Option<Json> {
    if path == [] then Some(node)
    else
      match (path[0], node)
      case (Key(name), Obj(fields)) => if name in fields then Follow(fields[name], path[1..]) else None
      case (Index(i), Arr(items)) => if i < |items| then Follow(items[i], path[1..]) else None
      case _ => None
  }

  /** A segment covers the key it spells, the index it spells, and `*` every index. */
  predicate Covers(seg: string, step: Step) {
    match step
    case Key(name) => seg == name
    case Index(i) => seg == "*" || ParseUsize(seg) == Some(i)
  }

  predicate CoversAll(segs: seq<string>, path: seq<Step>) {
    |segs| == |path| && forall k :: 0 <= k < |segs| ==> Covers(segs[k], path[k])
  }

  /** The indices that the starred segments stand for. */
  function Starred(segs: seq<string>, path: seq<Step>): seq<nat>
    requires |segs| == |path|
  {
    if segs == [] then []
    else (if segs[0] == "*" && path[0].Index? then [path[0].i] else []) + Starred(segs[1..], path[1..])
  }

  /** A path of the document that the pointer covers, with these indices at its stars. */
  ghost predicate Leads(node: Json, segs: seq<string>, path: seq<Step>, v: Json, idx: seq<nat>) {
    CoversAll(segs, path) && Starred(segs, path) == idx && Follow(node, path) == Some(v)
  }

  lemma CoversTail(segs: seq<string>, path: seq<Step>)
    requires segs != [] && path != []
    ensures CoversAll(segs, path) <==> Covers(segs[0], path[0]) && CoversAll(segs[1..], path[1..])
  {
    if Covers(segs[0], path[0]) && CoversAll(segs[1..], path[1..]) {
      forall k | 0 <= k < |segs| ensures Covers(segs[k], path[k]) {
        if k > 0 { assert segs[1..][k - 1] == segs[k] && path[1..][k - 1] == path[k]; }
      }
    }
  }

  /** Whatever the walk reaches lies on a covered path of the document. */
  lemma {:induction false} WalkIsPath(node: Json, segs: seq<string>, idx: seq<nat>) returns (path: seq<Step>)
    requires Walk(node, segs, idx).Some?
    ensures var (v, rest) := Walk(node, segs, idx).value;
            |rest| <= |idx| && idx[|idx| - |rest|..] == rest && Leads(node, segs, path, v, idx[..|idx| - |rest|])
  {
    if segs == [] {
      path := [];
    } else if FansOut(node, segs[0]) {
      var tail := WalkIsPath(node.items[idx[0]], segs[1..], idx[1..]);
      path := [Index(idx[0])] + tail;
      CoversTail(segs, path);
      assert path[1..] == tail;
      var n := |idx[1..]| - |Walk(node, segs, idx).value.1|;
      assert idx[..n + 1] == [idx[0]] + idx[1..][..n] && idx[n + 1..] == idx[1..][n..];
    } else {
      var tail := WalkIsPath(Child(node, segs[0]).value, segs[1..], idx);
      path := [if node.Obj? then Key(segs[0]) else Index(ParseUsize(segs[0]).value)] + tail;
      CoversTail(segs, path);
      assert path[1..] == tail;
    }
  }

  /** And every covered path of the document is walked. */
  lemma {:induction false} PathIsWalked(node: Json, segs: seq<string>, path: seq<Step>, v: Json, idx: seq<nat>,
                                        rest: seq<nat>)
    requires Leads(node, segs, path, v, idx)
    ensures Walk(node, segs, idx + rest) == Some((v, rest))
  {
    if segs == [] {
      assert idx + rest == rest;
    } else {
      CoversTail(segs, path);
      var starred := Starred(segs[1..], path[1..]);
      if FansOut(node, segs[0]) {
        StarIsNoIndex();
        PathIsWalked(node.items[path[0].i], segs[1..], path[1..], v, starred, rest);
        assert (idx + rest)[0] == path[0].i && (idx + rest)[1..] == starred + rest;
      } else {
        assert idx == starred;
        PathIsWalked(Child(node, segs[0]).value, segs[1..], path[1..], v, starred, rest);
      }
    }
  }

  lemma StarIsNoIndex()
    ensures ParseUsize("*") == None
  {
    assert '*' in "*" && !IsDigit('*');
  }

  /** A written number is read as itself as long as it fits. */
  lemma IndexIsRead(n: nat)
    ensures ParseUsize(Digits(n)) == if n <= USIZE_MAX then Some(n) else None
    ensures ParseUsize("+" + Digits(n)) == ParseUsize(Digits(n))
  {
    DecimalOfDigits(n);
    assert Digits(n)[0] in Digits(n);
    assert ("+" + Digits(n))[1..] == Digits(n);
    hide Digits, Decimal;
  }

  /** `expand` lists exactly the non-empty strings of the document that lie on a path the
      pointer covers, each under the indices its stars stand for. */
  lemma ExpansionIsDocument(node: Json, segs: seq<string>, idx: seq<nat>, s: string)
    ensures Found(idx, s) in Expansion(node, segs, [])
       <==> s != "" && exists path :: Leads(node, segs, path, Str(s), idx)
  {
    hide Expansion, Walk, Leads;
    ExpandAgreesWithNodeAt(node, segs, idx, s);
    if Walk(node, segs, idx) == Some((Str(s), [])) {
      var path := WalkIsPath(node, segs, idx);
      assert idx[..|idx|] == idx;
    }
    if path :| Leads(node, segs, path, Str(s), idx) {
      PathIsWalked(node, segs, path, Str(s), idx, []);
      assert idx + [] == idx;
    }
  }

  // ----- what a hit says ---------------------------------------------------------

  /** Following the pointer with the first of these indices at its stars ends at the string
      `s` of the document. */
  ghost predicate Reaches(obj: Json, pointer: Option<string>, at: seq<nat>, s: string) {
    && pointer.Some? && Segments(pointer.value).Some?
    && exists n, path :: 0 <= n <= |at| && Leads(obj, Segments(pointer.value).value, path, Str(s), at[..n])
  }

  lemma ReachesIsWalk(obj: Json, pointer: Option<string>, at: seq<nat>, s: string)
    ensures Reaches(obj, pointer, at, s) <==> ReadGroup(obj, Optional(pointer), at) == Some(s)
  {
    hide Segments, Walk, Leads;
    if pointer.Some? && Segments(pointer.value).Some? {
      var segs := Segments(pointer.value).value;
      if NodeAtSpec(obj, segs, at) == Some(Str(s)) {
        var path := WalkIsPath(obj, segs, at);
      }
      if n, path :| 0 <= n <= |at| && Leads(obj, segs, path, Str(s), at[..n]) {
        PathIsWalked(obj, segs, path, Str(s), at[..n], at[n..]);
        assert at[..n] + at[n..] == at;
      }
    }
  }

  /** The element of the document at these indices says what `hit` says: its name is a
      non-empty string on a path that the name's pointer covers, and its namespace, kind and
      group are the strings at their own pointers under the same indices. An empty namespace
      or kind is none, an empty group is a group. */
  ghost predicate Element(
    obj: Json, path: string, ns: Option<string>, kind: Option<string>, group: Option<string>, at: seq<nat>, hit: Hit)
  {
    && hit.name != "" && Segments(path).Some?
    && (exists p :: Leads(obj, Segments(path).value, p, Str(hit.name), at))
    && (forall s :: hit.namespace == Some(s) <==> s != "" && Reaches(obj, ns, at, s))
    && (forall s :: hit.kind == Some(s) <==> s != "" && Reaches(obj, kind, at, s))
    && (forall s :: hit.group == Some(s) <==> Reaches(obj, group, at, s))
  }

  lemma HitOfIsElement(
    obj: Json, path: string, ns: Option<string>, kind: Option<string>, group: Option<string>, f: Found)
    requires Segments(path).Some? && f.name != ""
    requires exists p :: Leads(obj, Segments(path).value, p, Str(f.name), f.at)
    ensures Element(obj, path, ns, kind, group, f.at, HitOf(obj, f, ns, kind, group))
  {
    hide Segments, Leads, NodeAtSpec, Reaches;
    forall s
      ensures Reaches(obj, ns, f.at, s) <==> ReadGroup(obj, Optional(ns), f.at) == Some(s)
      ensures Reaches(obj, kind, f.at, s) <==> ReadGroup(obj, Optional(kind), f.at) == Some(s)
      ensures Reaches(obj, group, f.at, s) <==> ReadGroup(obj, Optional(group), f.at) == Some(s)
    {
      ReachesIsWalk(obj, ns, f.at, s);
      ReachesIsWalk(obj, kind, f.at, s);
      ReachesIsWalk(obj, group, f.at, s);
    }
  }

  /** Every hit says what the element at its own indices says. */
  lemma HitReadsItsElement(
    obj: Json, path: string, ns: Option<string>, kind: Option<string>, group: Option<string>, i: nat)
    requires i < |PointerHits(obj, path, ns, kind, group)|
    ensures Segments(path).Some?
    ensures Element(obj, path, ns, kind, group, Expansion(obj, Segments(path).value, [])[i].at,
                    PointerHits(obj, path, ns, kind, group)[i])
  {
    hide Segments, Expansion, Leads, HitOf, Element;
    var f := Expansion(obj, Segments(path).value, [])[i];
    ExpansionIsDocument(obj, Segments(path).value, f.at, f.name);
    assert f == Found(f.at, f.name);
    HitOfIsElement(obj, path, ns, kind, group, f);
  }

  lemma ElementsAreAlike(obj: Json, path: string, ns: Option<string>, kind: Option<string>, group: Option<string>,
                         at: seq<nat>, a: Hit, b: Hit)
    requires Element(obj, path, ns, kind, group, at, a) && Element(obj, path, ns, kind, group, at, b)
    requires a.name == b.name
    ensures a == b
  {
    hide Segments, Leads, Reaches;
    OptionsAgree(a.namespace, b.namespace);
    OptionsAgree(a.kind, b.kind);
    OptionsAgree(a.group, b.group);
  }

  lemma OptionsAgree(a: Option<string>, b: Option<string>)
    requires forall s :: a == Some(s) <==> b == Some(s)
    ensures a == b
  {
    if a.Some? { assert a == Some(a.value); }
    if b.Some? { assert b == Some(b.value); }
  }

  /** The hits are exactly the elements of the document. */
  lemma HitsAreElements(
    obj: Json, path: string, ns: Option<string>, kind: Option<string>, group: Option<string>, hit: Hit)
    ensures hit in PointerHits(obj, path, ns, kind, group)
       <==> exists at :: Element(obj, path, ns, kind, group, at, hit)
  {
    hide Segments, Expansion, Leads, ReadString, ReadGroup, Reaches;
    var hits := PointerHits(obj, path, ns, kind, group);
    if i :| 0 <= i < |hits| && hits[i] == hit {
      HitReadsItsElement(obj, path, ns, kind, group, i);
    }
    if at :| Element(obj, path, ns, kind, group, at, hit) {
      var found := Expansion(obj, Segments(path).value, []);
      ExpansionIsDocument(obj, Segments(path).value, at, hit.name);
      var i :| 0 <= i < |found| && found[i] == Found(at, hit.name);
      HitReadsItsElement(obj, path, ns, kind, group, i);
      assert hits[i].name == hit.name;
      ElementsAreAlike(obj, path, ns, kind, group, at, hits[i], hit);
    }
  }
}
