/** Layered configuration (`merge`, `merge_config` and `layered`, src/config.rs) on
    documents that are already parsed; a config document is always a table. */
module ConfigMerge {
  import opened Wrappers

  /** `Scalar` stands for booleans, numbers and dates by their text. */
  datatype Value =
    | Str(text: string)
    | Scalar(text: string)
    | Array(items: seq<Value>)
    | Table(entries: map<string, Value>)

  type Document = map<string, Value>

  // ----- recursive merge ---------------------------------------------------------------------

  function Merged(base: Value, overlay: Value): Value
    decreases overlay
  {
    if base.Table? && overlay.Table? then
      Table(map k | k in base.entries.Keys + overlay.entries.Keys ::
              if k !in overlay.entries then base.entries[k]
              else if k in base.entries then Merged(base.entries[k], overlay.entries[k])
              else overlay.entries[k])
    else overlay
  }

  method Merge(base: Value, overlay: Value) returns (merged: Value)
    ensures merged == Merged(base, overlay)
    decreases overlay
  {
    if !(base.Table? && overlay.Table?) { return overlay; }
    var b, o := base.entries, overlay.entries;
    var rest := o.Keys;
    while rest != {}
      invariant rest <= o.Keys
      invariant b.Keys == base.entries.Keys + (o.Keys - rest)
      invariant forall k :: k in b ==>
        b[k] == if k in rest || k !in o then base.entries[k]
                else if k in base.entries then Merged(base.entries[k], o[k]) else o[k]
    {
      var k :| k in rest;
      if k in b && b[k].Table? && o[k].Table? {
        var slot := Merge(b[k], o[k]);
        b := b[k := slot];
      } else {
        b := b[k := o[k]];
      }
      rest := rest - {k};
    }
    merged := Table(b);
  }

  /** The value at a path of table keys. */
  function At(v: Value, path: seq<string>): Option<Value>
    decreases |path|
  {
    if path == [] then Some(v)
    else if v.Table? && path[0] in v.entries then At(v.entries[path[0]], path[1..])
    else None
  }

  /** Something other than a table stands on the way to `path`. */
  predicate Blocks(v: Value, path: seq<string>)
    decreases |path|
  {
    path != [] && (!v.Table? || (path[0] in v.entries && Blocks(v.entries[path[0]], path[1..])))
  }

  /** The merge, path by path: what the overlay has wins, two tables merge, a value of
      the overlay hides what the base had below it, and the rest of the base stays. */
  lemma {:induction false} MergedAt(base: Value, overlay: Value, path: seq<string>)
    ensures At(Merged(base, overlay), path) ==
      var b, o := At(base, path), At(overlay, path);
      if o.Some? then Some(if b.Some? then Merged(b.value, o.value) else o.value)
      else if Blocks(overlay, path) then None
      else b
    decreases |path|
  {
    if path != [] && base.Table? && overlay.Table? && path[0] in base.entries && path[0] in overlay.entries {
      MergedAt(base.entries[path[0]], overlay.entries[path[0]], path[1..]);
    }
  }

  lemma {:induction false} MergeIsIdempotent(v: Value)
    ensures Merged(v, v) == v
    decreases v
  {
    if v.Table? {
      forall k | k in v.entries ensures Merged(v.entries[k], v.entries[k]) == v.entries[k] {
        MergeIsIdempotent(v.entries[k]);
      }
      assert Merged(v, v).entries == v.entries;
    }
  }

  /** Merging the same overlay again changes nothing. */
  lemma {:induction false} MergeAbsorbs(base: Value, overlay: Value)
    ensures Merged(Merged(base, overlay), overlay) == Merged(base, overlay)
    decreases overlay
  {
    var once := Merged(base, overlay);
    if base.Table? && overlay.Table? {
      forall k | k in overlay.entries
        ensures Merged(once.entries[k], overlay.entries[k]) == once.entries[k]
      {
        if k in base.entries {
          MergeAbsorbs(base.entries[k], overlay.entries[k]);
        } else {
          MergeIsIdempotent(overlay.entries[k]);
        }
      }
      assert Merged(once, overlay).entries == once.entries;
    } else {
      MergeIsIdempotent(overlay);
    }
  }

  lemma EmptyIsIdentity(v: Value)
    ensures Merged(Table(map[]), v) == v
    ensures v.Table? ==> Merged(v, Table(map[])) == v
  {
    if v.Table? {
      assert Merged(Table(map[]), v).entries == v.entries;
      assert Merged(v, Table(map[])).entries == v.entries;
    }
  }

  /** Merging `z` over `x` keeps something of `x`: some path that `x` has and `z` neither
      has nor blocks. */
  ghost predicate Outlasts(x: Value, z: Value) {
    exists path :: At(x, path).Some? && At(z, path).None? && !Blocks(z, path)
  }

  lemma {:induction false} OutlastsIff(x: Value, z: Value)
    ensures Outlasts(x, z) <==> Merged(x, z) != z
    decreases z
  {
    if path :| At(x, path).Some? && At(z, path).None? && !Blocks(z, path) {
      MergedAt(x, z, path);
    } else if x.Table? && z.Table? {
      forall k | k in x.entries ensures k in z.entries && Merged(x.entries[k], z.entries[k]) == z.entries[k] {
        OutlastsBelow(x, z, k);
        if k in z.entries { OutlastsIff(x.entries[k], z.entries[k]); }
      }
      assert Merged(x, z).entries == z.entries;
    }
  }

  lemma AtKey(v: Value, k: string)
    requires v.Table?
    ensures At(v, [k]) == (if k in v.entries then Some(v.entries[k]) else None) && !Blocks(v, [k])
  {
    assert [k][1..] == [];
  }

  lemma OutlastsBelow(x: Value, z: Value, k: string)
    requires x.Table? && z.Table? && k in x.entries
    ensures k !in z.entries || Outlasts(x.entries[k], z.entries[k]) ==> Outlasts(x, z)
  {
    if k !in z.entries {
      AtKey(x, k);
      AtKey(z, k);
      assert At(x, [k]).Some? && At(z, [k]).None? && !Blocks(z, [k]);
    } else if path :| At(x.entries[k], path).Some? && At(z.entries[k], path).None? && !Blocks(z.entries[k], path) {
      assert ([k] + path)[1..] == path;
      assert At(x, [k] + path).Some? && At(z, [k] + path).None? && !Blocks(z, [k] + path);
    }
  }

  /** At `path` a table, then a plain value, then a table are merged, and something of
      the first table outlasts the last. */
  ghost predicate Clash(a: Value, b: Value, c: Value, path: seq<string>) {
    var x, y, z := At(a, path), At(b, path), At(c, path);
    && x.Some? && x.value.Table? && y.Some? && !y.value.Table? && z.Some? && z.value.Table?
    && Outlasts(x.value, z.value)
  }

  /** Merging is not associative in general: grouping makes no difference exactly when
      no path has such a clash. */
  lemma AssociativeIff(a: Value, b: Value, c: Value)
    ensures Merged(Merged(a, b), c) == Merged(a, Merged(b, c)) <==> forall path :: !Clash(a, b, c, path)
  {
    if path :| Clash(a, b, c, path) {
      ClashDiffers(a, b, c, path);
    } else {
      NoClashAgrees(a, b, c);
    }
  }

  lemma {:induction false} ClashDiffers(a: Value, b: Value, c: Value, path: seq<string>)
    requires Clash(a, b, c, path)
    ensures Merged(Merged(a, b), c) != Merged(a, Merged(b, c))
    decreases |path|
  {
    if path == [] {
      OutlastsIff(a, c);
    } else {
      var k := path[0];
      ClashDiffers(a.entries[k], b.entries[k], c.entries[k], path[1..]);
      assert Merged(Merged(a, b), c).entries[k] != Merged(a, Merged(b, c)).entries[k];
    }
  }

  lemma NoClashBelow(a: Value, b: Value, c: Value, k: string)
    requires forall path :: !Clash(a, b, c, path)
    requires a.Table? && b.Table? && c.Table? && k in a.entries && k in b.entries && k in c.entries
    ensures forall path :: !Clash(a.entries[k], b.entries[k], c.entries[k], path)
  {
    hide Outlasts, Merged;
    forall path ensures !Clash(a.entries[k], b.entries[k], c.entries[k], path) {
      assert !Clash(a, b, c, [k] + path);
      assert ([k] + path)[1..] == path;
    }
  }

  function MergedEntries(x: Option<Value>, y: Option<Value>): Option<Value> {
    if x.Some? && y.Some? then Some(Merged(x.value, y.value)) else if y.Some? then y else x
  }

  function Entry(v: Value, k: string): Option<Value> {
    if v.Table? && k in v.entries then Some(v.entries[k]) else None
  }

  /** Tables merge key by key. */
  lemma MergedKey(x: Value, y: Value, k: string)
    requires x.Table? && y.Table?
    ensures Merged(x, y).Table? && Entry(Merged(x, y), k) == MergedEntries(Entry(x, k), Entry(y, k))
  {
  }

  lemma SameEntries(x: Value, y: Value)
    requires x.Table? && y.Table? && forall k :: Entry(x, k) == Entry(y, k)
    ensures x == y
  {
    forall k ensures k in x.entries <==> k in y.entries
             ensures k in x.entries && k in y.entries ==> x.entries[k] == y.entries[k]
    {
      assert Entry(x, k) == Entry(y, k);
    }
    assert x.entries == y.entries;
  }

  lemma TablesStay(a: Value, b: Value, c: Value)
    requires a.Table? && b.Table? && c.Table?
    ensures Merged(a, b).Table? && Merged(b, c).Table?
    ensures Merged(Merged(a, b), c).Table? && Merged(a, Merged(b, c)).Table?
  {
  }

  lemma AgreeAt(a: Value, b: Value, c: Value, k: string)
    requires a.Table? && b.Table? && c.Table?
    requires k in a.entries && k in b.entries && k in c.entries ==>
               Merged(Merged(a.entries[k], b.entries[k]), c.entries[k])
               == Merged(a.entries[k], Merged(b.entries[k], c.entries[k]))
    ensures Entry(Merged(Merged(a, b), c), k) == Entry(Merged(a, Merged(b, c)), k)
  {
    TablesStay(a, b, c);
    hide Merged;
    MergedKey(a, b, k);
    MergedKey(Merged(a, b), c, k);
    MergedKey(b, c, k);
    MergedKey(a, Merged(b, c), k);
    assert Entry(a, k).Some? && Entry(b, k).Some? && Entry(c, k).Some? ==>
      k in a.entries && k in b.entries && k in c.entries;
  }

  lemma AgreeBelow(a: Value, b: Value, c: Value)
    requires a.Table? && b.Table? && c.Table?
    requires forall k :: k in a.entries && k in b.entries && k in c.entries ==>
               Merged(Merged(a.entries[k], b.entries[k]), c.entries[k])
               == Merged(a.entries[k], Merged(b.entries[k], c.entries[k]))
    ensures Merged(Merged(a, b), c) == Merged(a, Merged(b, c))
  {
    TablesStay(a, b, c);
    hide Merged, Entry;
    forall k ensures Entry(Merged(Merged(a, b), c), k) == Entry(Merged(a, Merged(b, c)), k) {
      AgreeAt(a, b, c, k);
    }
    SameEntries(Merged(Merged(a, b), c), Merged(a, Merged(b, c)));
  }

  lemma {:induction false} NoClashAgrees(a: Value, b: Value, c: Value)
    requires forall path :: !Clash(a, b, c, path)
    ensures Merged(Merged(a, b), c) == Merged(a, Merged(b, c))
    decreases c
  {
    if a.Table? && b.Table? && c.Table? {
      hide Clash, Merged;
      forall k | k in a.entries && k in b.entries && k in c.entries
        ensures Merged(Merged(a.entries[k], b.entries[k]), c.entries[k])
             == Merged(a.entries[k], Merged(b.entries[k], c.entries[k]))
      {
        NoClashBelow(a, b, c, k);
        NoClashAgrees(a.entries[k], b.entries[k], c.entries[k]);
      }
      AgreeBelow(a, b, c);
    } else {
      hide Outlasts;
      assert a.Table? && c.Table? && !b.Table? ==> !Outlasts(a, c) by { assert !Clash(a, b, c, []); }
      OutlastsIff(a, c);
    }
  }

  /** A table, a plain value and a table: merged from the left the first table is gone,
      merged from the right it comes back. */
  lemma GroupingMatters()
    ensures var a, b, c := Table(map["k" := Table(map["x" := Str("1")])]), Table(map["k" := Str("2")]),
                           Table(map["k" := Table(map[])]);
            && At(Merged(Merged(a, b), c), ["k", "x"]) == None
            && At(Merged(a, Merged(b, c)), ["k", "x"]) == Some(Str("1"))
  {
    var a, b, c := Table(map["k" := Table(map["x" := Str("1")])]), Table(map["k" := Str("2")]),
                   Table(map["k" := Table(map[])]);
    var inner := a.entries["k"];
    assert ["k", "x"][1..] == ["x"] && ["x"][1..] == [];
    assert Merged(Merged(a, b), c).entries["k"] == Table(map[]);
    assert Merged(a, Merged(b, c)).entries["k"] == Merged(inner, Table(map[]));
    assert Merged(inner, Table(map[])).entries["x"] == Str("1");
  }

  // ----- plugin lists ---------------------------------------------------------------------------

  /** The `name` of a plugin entry, when it has one that is a string. */
  function Name(entry: Value): Option<string> {
    if entry.Table? && "name" in entry.entries && entry.entries["name"].Str? then Some(entry.entries["name"].text)
    else None
  }

  /** No earlier entry has the name of entry `i`; unnamed entries stand for themselves. */
  predicate IsFirst(list: seq<Value>, i: nat)
    requires i < |list|
  {
    Name(list[i]).None? || forall j :: 0 <= j < i ==> Name(list[j]) != Name(list[i])
  }

  /** The positions of first entries, in order. */
  function Firsts(list: seq<Value>): (at: seq<nat>)
    ensures forall j :: 0 <= j < |at| ==> at[j] < |list| && IsFirst(list, at[j])
  {
    if list == [] then []
    else
      var n := |list| - 1;
      assert forall i :: 0 <= i < n && IsFirst(list[..n], i) ==> IsFirst(list, i);
      Firsts(list[..n]) + if IsFirst(list, n) then [n] else []
  }

  /** The last entry with the name of entry `i`. */
  function Latest(list: seq<Value>, i: nat): (entry: Value)
    requires i < |list|
    ensures Name(entry) == Name(list[i])
    decreases |list|
  {
    var n := |list| - 1;
    if i == n || (Name(list[i]).Some? && Name(list[n]) == Name(list[i])) then list[n] else Latest(list[..n], i)
  }

  /** Every name once, at its first position, with the content of its last entry. */
  function Combined(list: seq<Value>): (r: seq<Value>)
    ensures |r| == |Firsts(list)|
    ensures forall j :: 0 <= j < |r| ==> r[j] == Latest(list, Firsts(list)[j])
  {
    seq(|Firsts(list)|, j requires 0 <= j < |Firsts(list)| => Latest(list, Firsts(list)[j]))
  }

  lemma {:induction false} FirstOfName(list: seq<Value>, i: nat) returns (j: nat)
    requires i < |list| && Name(list[i]).Some?
    ensures j < |Firsts(list)| && Name(list[Firsts(list)[j]]) == Name(list[i])
    ensures Combined(list)[j] in Combined(list) && Name(Combined(list)[j]) == Name(list[i])
  {
    hide Combined, Name, Latest;
    var n := |list| - 1;
    if i < n {
      j := FirstOfName(list[..n], i);
    } else if IsFirst(list, n) {
      j := |Firsts(list)| - 1;
    } else {
      var k :| 0 <= k < n && Name(list[k]) == Name(list[n]);
      j := FirstOfName(list[..n], k);
    }
  }

  lemma {:induction false} FirstsAscend(list: seq<Value>)
    ensures forall j, k :: 0 <= j < k < |Firsts(list)| ==> Firsts(list)[j] < Firsts(list)[k]
  {
    if list != [] { FirstsAscend(list[..|list| - 1]); }
  }

  /** Each name once. */
  lemma NamesOnce(list: seq<Value>, j: nat, k: nat)
    requires j < |Combined(list)| && k < |Combined(list)| && Name(Combined(list)[j]).Some?
    ensures Name(Combined(list)[j]) == Name(Combined(list)[k]) ==> j == k
  {
    FirstsAscend(list);
  }

  /** The content is that of the last entry of the name. */
  lemma {:induction false} LatestIsLast(list: seq<Value>, i: nat) returns (k: nat)
    requires i < |list| && Name(list[i]).Some?
    ensures i <= k < |list| && list[k] == Latest(list, i) && Name(list[k]) == Name(list[i])
    ensures forall m :: k < m < |list| ==> Name(list[m]) != Name(list[i])
    decreases |list|
  {
    var n := |list| - 1;
    if i == n || Name(list[n]) == Name(list[i]) { k := n; } else { k := LatestIsLast(list[..n], i); }
  }

  function Unnamed(list: seq<Value>): seq<Value> {
    if list == [] then []
    else
      var last := list[|list| - 1];
      Unnamed(list[..|list| - 1]) + if Name(last).None? then [last] else []
  }

  lemma {:induction false} UnnamedAppend(a: seq<Value>, e: Value)
    ensures Unnamed(a + [e]) == Unnamed(a) + if Name(e).None? then [e] else []
  {
    assert (a + [e])[..|a|] == a;
  }

  /** Replacing a named entry by one of the same name. */
  lemma {:induction false} UnnamedUpdate(a: seq<Value>, i: nat, e: Value)
    requires i < |a| && Name(a[i]).Some? && Name(e).Some?
    ensures Unnamed(a[i := e]) == Unnamed(a)
  {
    var n := |a| - 1;
    if i < n {
      UnnamedUpdate(a[..n], i, e);
      assert a[i := e][..n] == a[..n][i := e];
    } else {
      assert a[i := e][..n] == a[..n];
    }
  }

  lemma LatestOne(list: seq<Value>, e: Value, i: nat)
    requires i < |list|
    ensures Latest(list + [e], i) == if Name(e).Some? && Name(list[i]) == Name(e) then e else Latest(list, i)
  {
    assert (list + [e])[..|list|] == list;
  }

  lemma FirstsOne(list: seq<Value>, e: Value)
    ensures Firsts(list + [e]) == Firsts(list) + if IsFirst(list + [e], |list|) then [|list|] else []
  {
    hide Name, IsFirst;
    assert (list + [e])[..|list|] == list;
  }

  /** An unnamed entry, or one of a new name, goes last. */
  lemma CombinedNew(list: seq<Value>, e: Value)
    requires forall c :: c in Combined(list) ==> Name(e).None? || Name(c) != Name(e)
    ensures Combined(list + [e]) == Combined(list) + [e]
  {
    hide Name, Latest, Firsts;
    var more := list + [e];
    forall i | 0 <= i < |list| ensures Name(e).None? || Name(list[i]) != Name(e) {
      if Name(list[i]).Some? { var j := FirstOfName(list, i); }
    }
    FirstsOne(list, e);
    assert Latest(more, |list|) == e by { LatestOfEnd(list, e); }
    forall j | 0 <= j < |Combined(list)| ensures Combined(more)[j] == Combined(list)[j] {
      LatestOne(list, e, Firsts(list)[j]);
    }
  }

  lemma LatestOfEnd(list: seq<Value>, e: Value)
    ensures Latest(list + [e], |list|) == e
  {
  }

  /** An entry of a known name replaces the content at the name's position. */
  lemma CombinedSame(list: seq<Value>, e: Value, at: nat)
    requires at < |Combined(list)| && Name(e).Some? && Name(Combined(list)[at]) == Name(e)
    ensures Combined(list + [e]) == Combined(list)[at := e]
  {
    hide Name, Latest, Firsts;
    var more := list + [e];
    assert more[Firsts(list)[at]] == list[Firsts(list)[at]];
    FirstsOne(list, e);
    forall j | 0 <= j < |Combined(list)| ensures Combined(more)[j] == Combined(list)[at := e][j] {
      LatestOne(list, e, Firsts(list)[j]);
      NamesOnce(list, at, j);
    }
  }

  /** Unnamed entries all stay, in order. */
  lemma {:induction false} UnnamedAreKept(list: seq<Value>)
    ensures Unnamed(Combined(list)) == Unnamed(list)
  {
    if list != [] {
      var front, e := list[..|list| - 1], list[|list| - 1];
      assert list == front + [e];
      UnnamedAreKept(front);
      UnnamedAppend(front, e);
      if at: nat :| at < |Combined(front)| && Name(e).Some? && Name(Combined(front)[at]) == Name(e) {
        CombinedSame(front, e, at);
        UnnamedUpdate(Combined(front), at, e);
      } else {
        CombinedNew(front, e);
        UnnamedAppend(Combined(front), e);
      }
    }
  }

  method CombineByName(list: seq<Value>) returns (combined: seq<Value>)
    ensures combined == Combined(list)
  {
    hide Combined, Name;
    combined := [];
    assert Combined([]) == [] by { NothingCombined(); }
    for i := 0 to |list|
      invariant combined == Combined(list[..i])
    {
      var e := list[i];
      assert list[..i + 1] == list[..i] + [e];
      var at := 0;
      while at < |combined| && !(Name(e).Some? && Name(combined[at]) == Name(e))
        invariant 0 <= at <= |combined|
        invariant forall j :: 0 <= j < at ==> Name(e).None? || Name(combined[j]) != Name(e)
      {
        at := at + 1;
      }
      if at < |combined| {
        CombinedSame(list[..i], e, at);
        combined := combined[at := e];
      } else {
        CombinedNew(list[..i], e);
        combined := combined + [e];
      }
    }
    assert list[..|list|] == list;
  }

  lemma NothingCombined()
    ensures Combined([]) == []
  {
  }

  // ----- one layer ----------------------------------------------------------------------------------

  /** The two root keys that steer plugin merging. */
  datatype Controls = Controls(byName: bool, remove: seq<string>)

  /** None when a control has the wrong shape. */
  function ParseControls(doc: Document): Option<Controls> {
    var mode :=
      if "plugins_merge" !in doc || doc["plugins_merge"] == Str("replace") then Some(false)
      else if doc["plugins_merge"] == Str("name") then Some(true)
      else None;
    var remove :=
      if "plugins_remove" !in doc then Some([])
      else
        var v := doc["plugins_remove"];
        if v.Array? && (forall s :: s in v.items ==> s.Str?) then Some(Texts(v.items)) else None;
    if mode.Some? && remove.Some? then Some(Controls(mode.value, remove.value)) else None
  }

  function Texts(items: seq<Value>): seq<string>
    requires forall s :: s in items ==> s.Str?
  {
    seq(|items|, i requires 0 <= i < |items| => items[i].text)
  }

  function Kept(entries: seq<Value>, remove: seq<string>): seq<Value> {
    if entries == [] then []
    else
      var e, more := entries[0], Kept(entries[1..], remove);
      if Name(e).Some? && Name(e).value in remove then more else [e] + more
  }

  predicate IsRemoved(entry: Value, remove: seq<string>) { Name(entry).Some? && Name(entry).value in remove }

  /** Removal is decided entry by entry and keeps the order. */
  lemma {:induction false} KeptOfBoth(a: seq<Value>, b: seq<Value>, remove: seq<string>)
    ensures Kept(a + b, remove) == Kept(a, remove) + Kept(b, remove)
  {
    if a == [] {
      assert a + b == b;
    } else {
      assert (a + b)[1..] == a[1..] + b;
      KeptOfBoth(a[1..], b, remove);
    }
  }

  lemma {:induction false} KeptAreTheRest(entries: seq<Value>, remove: seq<string>)
    ensures forall e :: multiset(Kept(entries, remove))[e] == if IsRemoved(e, remove) then 0 else multiset(entries)[e]
  {
    if entries != [] {
      KeptAreTheRest(entries[1..], remove);
      assert entries == [entries[0]] + entries[1..];
    }
  }

  function Plugins(doc: Document): seq<Value> {
    if "plugins" in doc && doc["plugins"].Array? then doc["plugins"].items else []
  }

  /** The base once the removed plugins are out. */
  function Pruned(base: Document, remove: seq<string>): Document {
    if "plugins" in base && base["plugins"].Array? then base["plugins" := Array(Kept(Plugins(base), remove))]
    else base
  }

  /** The overlay without its controls and, by name, with the whole new plugin list. */
  function Prepared(base: Document, overlay: Document, c: Controls): Document {
    var plain := overlay - {"plugins_merge", "plugins_remove"};
    if c.byName && "plugins" in plain && plain["plugins"].Array? then
      plain["plugins" := Array(Combined(Kept(Plugins(base), c.remove) + Plugins(overlay)))]
    else plain
  }

  function Layer(base: Document, overlay: Document): Option<Document> {
    var c := ParseControls(overlay);
    if c.None? then None
    else Some(Merged(Table(Pruned(base, c.value.remove)), Table(Prepared(base, overlay, c.value))).entries)
  }

  class Config {
    var root: Document

    constructor (root: Document)
      ensures this.root == root
    {
      this.root := root;
    }

    /** `merge_config`: false, and nothing changed, when the controls are invalid. */
    method MergeConfig(overlay: Document) returns (ok: bool)
      modifies this
      ensures ok <==> ParseControls(overlay).Some?
      ensures root == if ok then Layer(old(root), overlay).value else old(root)
    {
      hide Merged, Combined, Kept, ParseControls;
      var c := ParseControls(overlay);
      if c.None? { return false; }
      var table := overlay - {"plugins_merge", "plugins_remove"};
      var pruned := root;
      if "plugins" in root && root["plugins"].Array? {
        pruned := root["plugins" := Array(Kept(root["plugins"].items, c.value.remove))];
      }
      if c.value.byName && "plugins" in table && table["plugins"].Array? {
        var combined := CombineByName(Plugins(pruned) + table["plugins"].items);
        assert Plugins(pruned) == Kept(Plugins(root), c.value.remove) by { NothingKept(c.value.remove); }
        table := table["plugins" := Array(combined)];
      }
      var merged := Merge(Table(pruned), Table(table));
      assert merged.Table? by { MergedTables(pruned, table); }
      root := merged.entries;
      return true;
    }
  }

  lemma NothingKept(remove: seq<string>)
    ensures Kept([], remove) == []
  {
  }

  lemma MergedTables(a: Document, b: Document)
    ensures Merged(Table(a), Table(b)).Table?
    ensures Merged(Table(a), Table(b)).entries.Keys == a.Keys + b.Keys
  {
  }

  const PLUGIN_KEYS := {"plugins", "plugins_merge", "plugins_remove"}

  /** What one layer does to the plugin list, in both modes: removal first, then the
      name-keyed combination, or the overlay's list as it is. */
  lemma PluginsOfLayer(base: Document, overlay: Document)
    requires ParseControls(overlay).Some?
    ensures var c, after := ParseControls(overlay).value, Layer(base, overlay).value;
            var kept := Kept(Plugins(base), c.remove);
      && ("plugins" in overlay && overlay["plugins"].Array? ==>
            "plugins" in after
            && after["plugins"] == Array(if c.byName then Combined(kept + Plugins(overlay)) else Plugins(overlay)))
      && ("plugins" !in overlay ==> Plugins(after) == kept && ("plugins" in after <==> "plugins" in base))
  {
    hide Combined, ParseControls, Kept;
    var c := ParseControls(overlay).value;
    MergedEntry(Pruned(base, c.remove), Prepared(base, overlay, c), "plugins");
    NothingKept(c.remove);
  }

  lemma MergedEntry(base: Document, overlay: Document, k: string)
    ensures var after := Merged(Table(base), Table(overlay)).entries;
      && (k in overlay && !overlay[k].Table? ==> k in after && after[k] == overlay[k])
      && (k !in overlay ==> (k in after <==> k in base) && (k in base ==> after[k] == base[k]))
  {
  }

  /** Which controls a layer can carry, and what each does to a list of plugins it brings:
      without one or with `replace` the list stands alone, with `name` it is combined with the
      one before; anything else makes the layer invalid. */
  lemma PluginModes(base: Document, overlay: Document)
    requires "plugins" in overlay && overlay["plugins"].Array? && "plugins_remove" !in overlay
    ensures var after := Layer(base, overlay);
      if "plugins_merge" !in overlay || overlay["plugins_merge"] == Str("replace") then
        after.Some? && "plugins" in after.value && after.value["plugins"] == overlay["plugins"]
      else if overlay["plugins_merge"] == Str("name") then
        after.Some? && "plugins" in after.value
        && after.value["plugins"] == Array(Combined(Plugins(base) + overlay["plugins"].items))
      else after.None?
  {
    hide Combined, Merged;
    LayerNeedsControls(base, overlay);
    if ParseControls(overlay).Some? {
      PluginsOfLayer(base, overlay);
      NothingRemoved(Plugins(base));
    }
  }

  lemma {:induction false} NothingRemoved(entries: seq<Value>)
    ensures Kept(entries, []) == entries
  {
    if entries != [] {
      NothingRemoved(entries[1..]);
      assert [entries[0]] + entries[1..] == entries;
    }
  }

  /** Names to remove: an array of strings, and nothing else. */
  lemma RemovalsAreStrings(overlay: Document, names: seq<string>)
    requires "plugins_merge" !in overlay && "plugins_remove" in overlay
    ensures var v := overlay["plugins_remove"];
      && (ParseControls(overlay).Some? <==> v.Array? && forall e :: e in v.items ==> e.Str?)
      && (v == Array(seq(|names|, i requires 0 <= i < |names| => Str(names[i]))) ==>
            ParseControls(overlay) == Some(Controls(false, names)))
  {
    var items := seq(|names|, i requires 0 <= i < |names| => Str(names[i]));
    if overlay["plugins_remove"] == Array(items) { assert Texts(items) == names; }
  }

  function Plugin(name: string, command: string): Value {
    Table(map["name" := Str(name), "command" := Str(command)])
  }

  /** Two lists of plugins brought together by name: the plugin of the same name takes the
      place of the old one, and a new one goes last. */
  lemma SameNameTakesThePlace()
    ensures Combined([Plugin("a", "old"), Plugin("b", "kept")] + [Plugin("c", "new"), Plugin("a", "now")])
         == [Plugin("a", "now"), Plugin("b", "kept"), Plugin("c", "new")]
    ensures Kept([Plugin("a", "old"), Plugin("b", "kept")], ["a"]) == [Plugin("b", "kept")]
  {
    hide Combined;
    NothingCombined();
    var a, b, c, now := Plugin("a", "old"), Plugin("b", "kept"), Plugin("c", "new"), Plugin("a", "now");
    CombinedNew([], a);
    assert [] + [a] == [a] && Combined([a]) == [a];
    CombinedNew([a], b);
    assert [a] + [b] == [a, b] && Combined([a, b]) == [a, b];
    CombinedNew([a, b], c);
    assert [a, b] + [c] == [a, b, c] && Combined([a, b, c]) == [a, b, c];
    CombinedSame([a, b, c], now, 0);
    assert [a, b, c] + [now] == [a, b] + [c, now] && [a, b, c][0 := now] == [now, b, c];
    assert [a, b][1..] == [b] && [b][1..] == [];
  }

  /** The controls steer one merge and are never stored. */
  lemma ControlsAreNotStored(base: Document, overlay: Document)
    requires ParseControls(overlay).Some?
    requires "plugins_merge" !in base && "plugins_remove" !in base
    ensures var after := Layer(base, overlay).value; "plugins_merge" !in after && "plugins_remove" !in after
  {
    hide Combined, ParseControls, Kept;
    var c := ParseControls(overlay).value;
    MergedTables(Pruned(base, c.remove), Prepared(base, overlay, c));
  }

  // ----- all layers -----------------------------------------------------------------------------------

  /** The layers over `b` in order; None stands for a file that is absent or unreadable,
      and a layer with invalid controls is skipped. */
  function Applied(b: Document, docs: seq<Option<Document>>): Document {
    if docs == [] then b
    else
      var before, last := Applied(b, docs[..|docs| - 1]), docs[|docs| - 1];
      var next := if last.Some? then Layer(before, last.value) else None;
      if next.Some? then next.value else before
  }

  /** The accepted layers alone, merged over nothing. */
  function Overlay(docs: seq<Option<Document>>): Document {
    if docs == [] then map[]
    else
      var before, last := Overlay(docs[..|docs| - 1]), docs[|docs| - 1];
      if last.Some? && ParseControls(last.value).Some? then Merged(Table(before), Table(last.value)).entries
      else before
  }

  method MergeAll(config: Config, docs: seq<Option<Document>>) returns (overlay: Document)
    modifies config
    ensures config.root == Applied(old(config.root), docs)
    ensures overlay == Overlay(docs)
  {
    hide Layer, ParseControls, Merged;
    overlay := map[];
    for i := 0 to |docs|
      invariant config.root == Applied(old(config.root), docs[..i])
      invariant overlay == Overlay(docs[..i])
    {
      assert docs[..i + 1][..i] == docs[..i];
      if docs[i].Some? {
        LayerNeedsControls(config.root, docs[i].value);
        var ok := config.MergeConfig(docs[i].value);
        if ok {
          var merged := Merge(Table(overlay), Table(docs[i].value));
          MergedTables(overlay, docs[i].value);
          overlay := merged.entries;
        }
      }
    }
    assert docs[..|docs|] == docs;
  }

  lemma LayerNeedsControls(base: Document, overlay: Document)
    ensures Layer(base, overlay).Some? <==> ParseControls(overlay).Some?
  {
  }

  /** What the typed check leaves in force: the merged document, else the config file's
      own, else the defaults, which the empty document stands for. */
  function Effective(typed: Document -> bool, base: Document, merged: Document): Document {
    if typed(merged) then merged else Fallback(typed, base)
  }

  function Fallback(typed: Document -> bool, base: Document): Document { if typed(base) then base else map[] }

  /** The config file's own settings: one layer over nothing. */
  function Base(file: Document): Document { Applied(map[], [Some(file)]) }

  function AllLayers(file: Document, dropins: seq<Option<Document>>, overrides: seq<Option<Document>>): Document {
    Applied(Applied(Base(file), dropins), overrides)
  }

  /** `layered`: the config file over nothing, then drop-ins, then the override files,
      checked as a whole; and the override files alone, checked or not. */
  method Layered(typed: Document -> bool, file: Document, dropins: seq<Option<Document>>,
                 overrides: seq<Option<Document>>)
    returns (effective: Document, overlay: Document)
    ensures effective == Effective(typed, Base(file), AllLayers(file, dropins, overrides))
    ensures typed(effective) || effective == map[]
    ensures !typed(effective) ==> !typed(Base(file)) && !typed(AllLayers(file, dropins, overrides))
    ensures overlay == Overlay(overrides)
  {
    hide Applied, Overlay;
    var config := new Config(map[]);
    var _ := MergeAll(config, [Some(file)]);
    var base := config.root;
    var _ := MergeAll(config, dropins);
    overlay := MergeAll(config, overrides);
    if typed(config.root) { return config.root, overlay; }
    effective := if typed(base) then base else map[];
  }

  function Leaf(v: Option<Value>): Option<Value> { if v.Some? && !v.value.Table? then v else None }

  /** One layer, away from the plugin keys, is a plain merge. */
  lemma LayerAt(base: Document, overlay: Document, path: seq<string>)
    requires ParseControls(overlay).Some? && path != [] && path[0] !in PLUGIN_KEYS
    ensures At(Table(Layer(base, overlay).value), path) == At(Merged(Table(base), Table(overlay)), path)
  {
    hide ParseControls, Kept, Combined, Plugins, Merged;
    var c := ParseControls(overlay).value;
    var b, o := Table(Pruned(base, c.remove)), Table(Prepared(base, overlay, c));
    MergedAt(b, o, path);
    MergedAt(Table(base), Table(overlay), path);
    assert path[0] in o.entries <==> path[0] in overlay;
    assert path[0] in b.entries <==> path[0] in base;
    MergedTables(b.entries, o.entries);
  }

  /** Agreement of the two folds: a leaf the overrides set, away from the plugin keys,
      is the merged document's over any base; its every other leaf is the base's. */
  lemma {:induction false} OverridesDecide(b: Document, docs: seq<Option<Document>>, path: seq<string>)
    requires path != [] && path[0] !in PLUGIN_KEYS
    ensures var pinned, now := Leaf(At(Table(Overlay(docs)), path)), Leaf(At(Table(Applied(b, docs)), path));
            (pinned.Some? ==> now == pinned) && (now.Some? ==> now == pinned || now == Leaf(At(Table(b), path)))
  {
    hide ParseControls, Layer, Merged;
    if docs != [] {
      var front, last := docs[..|docs| - 1], docs[|docs| - 1];
      OverridesDecide(b, front, path);
      if last.Some? {
        LayerNeedsControls(Applied(b, front), last.value);
        if ParseControls(last.value).Some? {
          OneMoreLayer(b, Overlay(front), Applied(b, front), last.value, path);
        }
      }
    }
  }

  lemma OneMoreLayer(b: Document, overlay: Document, merged: Document, v: Document, path: seq<string>)
    requires path != [] && path[0] !in PLUGIN_KEYS && ParseControls(v).Some?
    requires var pinned, now := Leaf(At(Table(overlay), path)), Leaf(At(Table(merged), path));
             (pinned.Some? ==> now == pinned) && (now.Some? ==> now == pinned || now == Leaf(At(Table(b), path)))
    ensures var pinned := Leaf(At(Table(Merged(Table(overlay), Table(v)).entries), path));
            var now := Leaf(At(Table(Layer(merged, v).value), path));
            (pinned.Some? ==> now == pinned) && (now.Some? ==> now == pinned || now == Leaf(At(Table(b), path)))
  {
    hide ParseControls, Layer;
    LayerAt(merged, v, path);
    MergedAt(Table(merged), Table(v), path);
    MergedAt(Table(overlay), Table(v), path);
    MergedTables(overlay, v);
    hide Merged;
    MergedIsTable(At(Table(merged), path), At(Table(v), path));
    MergedIsTable(At(Table(overlay), path), At(Table(v), path));
  }

  lemma MergedIsTable(b: Option<Value>, o: Option<Value>)
    ensures b.Some? && o.Some? ==>
      if o.value.Table? then Merged(b.value, o.value).Table? else Merged(b.value, o.value) == o.value
  {
  }

  /** The newest layer decides: what it sets, away from the plugin keys, is in force over any
      layers before it and in the overrides alone. */
  lemma NewestLayerDecides(b: Document, docs: seq<Option<Document>>, doc: Document, path: seq<string>)
    requires path != [] && path[0] !in PLUGIN_KEYS && ParseControls(doc).Some?
    requires Leaf(At(Table(doc), path)).Some?
    ensures At(Table(Applied(b, docs + [Some(doc)])), path) == At(Table(doc), path)
    ensures At(Table(Overlay(docs + [Some(doc)])), path) == At(Table(doc), path)
  {
    hide ParseControls, Layer, Merged;
    var all := docs + [Some(doc)];
    assert all[..|docs|] == docs;
    var before, overlay := Applied(b, docs), Overlay(docs);
    LayerNeedsControls(before, doc);
    LayerAt(before, doc, path);
    MergedAt(Table(before), Table(doc), path);
    MergedAt(Table(overlay), Table(doc), path);
    MergedTables(overlay, doc);
    MergedIsTable(At(Table(before), path), At(Table(doc), path));
    MergedIsTable(At(Table(overlay), path), At(Table(doc), path));
  }

  /** The skin that `resolve_inner` reports as pinned by the overrides. */
  function SkinOverride(overlay: Document): Option<string> {
    var name := At(Table(overlay), ["skin", "name"]);
    if name.Some? && name.value.Str? then Some(name.value.text) else None
  }

  /** When a leaf the overrides pin, away from the plugin keys, is in force: exactly when
      the merged document passes the typed check, or the document fallen back to has
      that very leaf. */
  lemma PinnedLeafIsEffectiveIff(typed: Document -> bool, file: Document, dropins: seq<Option<Document>>,
                                 overrides: seq<Option<Document>>, path: seq<string>)
    requires path != [] && path[0] !in PLUGIN_KEYS && Leaf(At(Table(Overlay(overrides)), path)).Some?
    ensures var merged, pinned := AllLayers(file, dropins, overrides), Leaf(At(Table(Overlay(overrides)), path));
            Leaf(At(Table(Effective(typed, Base(file), merged)), path)) == pinned
            <==> typed(merged) || Leaf(At(Table(Fallback(typed, Base(file))), path)) == pinned
  {
    hide Overlay, Applied, Base, At;
    OverridesDecide(Applied(Base(file), dropins), overrides, path);
  }

  /** When the skin that `resolve_inner` reports as pinned is the skin in force. */
  lemma PinnedSkinIsEffectiveIff(typed: Document -> bool, file: Document, dropins: seq<Option<Document>>,
                                 overrides: seq<Option<Document>>)
    requires SkinOverride(Overlay(overrides)).Some?
    ensures var merged, pinned := AllLayers(file, dropins, overrides), SkinOverride(Overlay(overrides));
            SkinOverride(Effective(typed, Base(file), merged)) == pinned
            <==> typed(merged) || SkinOverride(Fallback(typed, Base(file))) == pinned
  {
    hide Overlay, Applied, Base, At;
    PinnedLeafIsEffectiveIff(typed, file, dropins, overrides, ["skin", "name"]);
  }

  // ----- an override that breaks the typed check ------------------------------------------------------

  /** The part of the typed check that the example needs: `readonly` is a boolean. */
  predicate ReadonlyIsBoolean(doc: Document) { "readonly" in doc ==> doc["readonly"].Scalar? }

  function SkinNamed(name: string): Document { map["skin" := Table(map["name" := Str(name)])] }

  lemma OneLayer(b: Document, doc: Document)
    ensures Applied(b, [Some(doc)]) == if Layer(b, doc).Some? then Layer(b, doc).value else b
    ensures Overlay([Some(doc)])
         == if ParseControls(doc).Some? then Merged(Table(map[]), Table(doc)).entries else map[]
  {
    assert [Some(doc)][..0] == [];
    assert Applied(b, []) == b && Overlay([]) == map[];
  }

  /** A document without plugin keys over another is a plain merge. */
  lemma PlainLayer(base: Document, doc: Document)
    requires forall k :: k in PLUGIN_KEYS ==> k !in base && k !in doc
    ensures Layer(base, doc) == Some(Merged(Table(base), Table(doc)).entries)
  {
    assert doc - {"plugins_merge", "plugins_remove"} == doc;
  }

  lemma SkinOf(name: string)
    ensures SkinOverride(SkinNamed(name)) == Some(name)
    ensures SkinOverride(SkinNamed(name)["readonly" := Str("yes")]) == Some(name)
  {
    assert ["skin", "name"][1..] == ["name"] && ["name"][1..] == [];
  }

  /** The override's skin is reported as pinned while the config file's is in force. */
  lemma BrokenOverridePinsNothing()
    ensures var overrides := [Some(SkinNamed("b")["readonly" := Str("yes")])];
            var merged := AllLayers(SkinNamed("a"), [], overrides);
            && SkinOverride(Overlay(overrides)) == Some("b")
            && SkinOverride(Effective(ReadonlyIsBoolean, Base(SkinNamed("a")), merged)) == Some("a")
  {
    var file, doc := SkinNamed("a"), SkinNamed("b")["readonly" := Str("yes")];
    assert Base(file) == file && ReadonlyIsBoolean(file) by {
      OneLayer(map[], file);
      PlainLayer(map[], file);
      EmptyIsIdentity(Table(file));
    }
    assert Overlay([Some(doc)]) == doc by {
      OneLayer(map[], doc);
      PlainLayer(map[], doc);
      EmptyIsIdentity(Table(doc));
    }
    assert !ReadonlyIsBoolean(AllLayers(file, [], [Some(doc)])) by {
      assert Applied(file, []) == file;
      OneLayer(file, doc);
      PlainLayer(file, doc);
      MergedEntry(file, doc, "readonly");
    }
    hide SkinNamed, SkinOverride, ReadonlyIsBoolean, Overlay, AllLayers, Base;
    SkinOf("a");
    SkinOf("b");
  }
}
