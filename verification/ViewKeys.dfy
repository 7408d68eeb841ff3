/** View keys: the keys a kind can be configured under (`lookup_keys`, src/views.rs) and the
    kind a key names to the registry (`resolve_view_key`, src/adjacent.rs). */
module ViewKeys {
  import opened Wrappers
  import opened Text

  datatype KindRef = KindRef(
    group: string, apiVersion: string, kind: string, resource: string, namespaced: bool, plural: string)

  /** `Kinds::by_name`, the lookup the cluster's registry answers. */
  type Registry = string -> Option<KindRef>

  // ----- the parts of a key ---------------------------------------------------------

  function First(s: string, c: char): (i: nat)
    ensures i <= |s| && (i < |s| ==> s[i] == c)
    ensures forall j :: 0 <= j < i ==> s[j] != c
  {
    if s == "" || s[0] == c then 0 else 1 + First(s[1..], c)
  }

  function LastSlash(s: string): (i: int)
    ensures -1 <= i < |s| && (i >= 0 ==> s[i] == '/')
    ensures forall j :: i < j < |s| ==> s[j] != '/'
  {
    if s == "" then -1 else if s[|s| - 1] == '/' then |s| - 1 else LastSlash(s[..|s| - 1])
  }

  function LastSegment(key: string): string { key[LastSlash(key) + 1..] }

  /** The namespace a view key is qualified with (`pods@prod`). */
  function KeyNamespace(key: string): Option<string> {
    var last := LastSegment(key);
    var at := First(last, '@');
    if at < |last| then Some(last[at + 1..]) else None
  }

  /** A resource without a named layout (`pods:images`). */
  function WithoutLayout(s: string): string { s[..First(s, ':')] }

  /** The plural a view key names, without a layout or a namespace. */
  function KeyPlural(key: string): string {
    var last := LastSegment(key);
    WithoutLayout(last[..First(last, '@')])
  }

  /** A plural as the registry knows it within an API group. */
  function Qualified(plural: string, group: string): string {
    if group == "v1" then plural else plural + "." + group
  }

  /** The group of `group` or `group/version`. */
  function GroupOf(prefix: string): string { prefix[..First(prefix, '/')] }

  predicate NamesVersionOrGroup(prefix: string, k: KindRef) {
    prefix == Lower(k.apiVersion) || prefix == Lower(k.group)
  }

  function ResolveViewKey(reg: Registry, key: string): Option<KindRef> {
    var plural, at := KeyPlural(key), LastSlash(key);
    if at < 0 then reg(plural)
    else
      var prefix := Lower(key[..at]);
      var resolved := reg(Qualified(plural, GroupOf(prefix)));
      if resolved.Some? && NamesVersionOrGroup(prefix, resolved.value) then resolved else None
  }

  function LookupKeys(ar: KindRef, ns: string): seq<string> {
    var plural := Lower(ar.resource);
    var keys := [Lower(ar.apiVersion) + "/" + plural]
                + (if ar.group != "" then [Lower(ar.group) + "/" + plural] else [])
                + [plural, Lower(ar.kind)];
    if ns == "" then keys
    else seq(|keys|, i requires 0 <= i < |keys| => keys[i] + "@" + ns) + keys
  }

  // ----- what a lookup key resolves to -------------------------------------------------

  /** The four spellings of a kind's key. */
  datatype Spelling = ByVersion | ByGroup | ByPlural | ByKind

  /** What stands before the slash, if there is one. */
  function Head(ar: KindRef, how: Spelling): Option<string> {
    match how
    case ByVersion => Some(Lower(ar.apiVersion))
    case ByGroup => Some(Lower(ar.group))
    case _ => None
  }

  function Tail(ar: KindRef, how: Spelling): string { if how.ByKind? then Lower(ar.kind) else Lower(ar.resource) }

  function Before(ar: KindRef, how: Spelling): string {
    var head := Head(ar, how);
    if head.Some? then head.value + "/" else ""
  }

  function Spelt(ar: KindRef, how: Spelling): string { Before(ar, how) + Tail(ar, how) }

  predicate Spellable(ar: KindRef, how: Spelling) { how.ByGroup? ==> ar.group != "" }

  /** A key of the kind in this spelling, for every namespace or for one. */
  predicate Spells(ar: KindRef, ns: string, how: Spelling, key: string) {
    && Spellable(ar, how)
    && (key == Spelt(ar, how) || (ns != "" && key == Spelt(ar, how) + "@" + ns))
  }

  /** The name the registry is asked for. */
  function Asked(ar: KindRef, how: Spelling): string {
    var head, plural := Head(ar, how), WithoutLayout(Tail(ar, how));
    if head.Some? then Qualified(plural, GroupOf(head.value)) else plural
  }

  predicate PlainName(s: string) { '/' !in s && '@' !in s }

  predicate PlainKind(ar: KindRef) { PlainName(ar.resource) && PlainName(ar.kind) }

  /** The keys in the order they are looked up: by version, by group, by plural, by kind; those
      for the object's own namespace before those for every namespace. */
  lemma LookupKeysInOrder(ar: KindRef, ns: string)
    ensures var keys, n := LookupKeys(ar, ns), if ar.group == "" then 3 else 4;
      && |keys| == (if ns == "" then n else 2 * n)
      && keys[|keys| - n] == Spelt(ar, ByVersion)
      && (ar.group != "" ==> keys[|keys| - 3] == Spelt(ar, ByGroup))
      && keys[|keys| - 2] == Spelt(ar, ByPlural) && keys[|keys| - 1] == Spelt(ar, ByKind)
      && (ns != "" ==> forall i :: 0 <= i < n ==> keys[i] == keys[n + i] + "@" + ns)
  {
    hide Lower;
  }

  lemma LookupKeysAreSpelt(ar: KindRef, ns: string, key: string)
    ensures key in LookupKeys(ar, ns) <==> exists how :: Spells(ar, ns, how, key)
  {
    QualifiedKeys(ar, ns, key);
    PlainKeys(ar, key);
    hide LookupKeys, Spelt;
    assert forall how :: Spellable(ar, how) && key == Spelt(ar, how) ==> Spells(ar, ns, how, key);
    if plain :| plain in LookupKeys(ar, "") && ns != "" && key == plain + "@" + ns {
      PlainKeys(ar, plain);
      var how :| Spellable(ar, how) && plain == Spelt(ar, how);
      assert Spells(ar, ns, how, key);
    }
    if how :| Spells(ar, ns, how, key) && key != Spelt(ar, how) {
      PlainKeys(ar, Spelt(ar, how));
      assert Spellable(ar, how);
    }
  }

  lemma QualifiedKeys(ar: KindRef, ns: string, key: string)
    ensures key in LookupKeys(ar, ns)
       <==> || key in LookupKeys(ar, "")
            || (ns != "" && exists plain :: plain in LookupKeys(ar, "") && key == plain + "@" + ns)
  {
    hide Lower;
    var plain, keys := LookupKeys(ar, ""), LookupKeys(ar, ns);
    if ns != "" {
      var more := seq(|plain|, i requires 0 <= i < |plain| => plain[i] + "@" + ns);
      assert keys == more + plain;
      forall p | p in plain ensures p + "@" + ns in more {
        var i :| 0 <= i < |plain| && plain[i] == p;
        assert more[i] == p + "@" + ns;
      }
    }
  }

  lemma PlainKeys(ar: KindRef, key: string)
    ensures key in LookupKeys(ar, "") <==>
      exists how :: Spellable(ar, how) && key == Spelt(ar, how)
  {
    hide Lower;
    assert Spellable(ar, ByVersion) && Spellable(ar, ByPlural) && Spellable(ar, ByKind);
    assert ar.group != "" ==> Spellable(ar, ByGroup);
    var plural := Lower(ar.resource);
    assert Spelt(ar, ByVersion) == Lower(ar.apiVersion) + "/" + plural;
    assert Spelt(ar, ByGroup) == Lower(ar.group) + "/" + plural;
    assert Spelt(ar, ByPlural) == plural && Spelt(ar, ByKind) == Lower(ar.kind);
  }

  lemma LowerTwice(s: string)
    ensures Lower(Lower(s)) == Lower(s)
  {
  }

  lemma LowerIsPlain(s: string)
    requires PlainName(s)
    ensures PlainName(Lower(s))
  {
  }

  lemma FirstIs(s: string, c: char, i: nat)
    requires i <= |s| && (i < |s| ==> s[i] == c) && forall j :: 0 <= j < i ==> s[j] != c
    ensures First(s, c) == i
  {
  }

  /** What stands after the slash of a spelt key. */
  function End(ar: KindRef, ns: string, how: Spelling, key: string): string {
    if key == Spelt(ar, how) then Tail(ar, how) else Tail(ar, how) + "@" + ns
  }

  lemma EndParts(ar: KindRef, ns: string, how: Spelling, key: string)
    requires PlainKind(ar) && '/' !in ns
    ensures var last, tail := End(ar, ns, how, key), Tail(ar, how);
      && First(last, '@') == |tail| && last[..|tail|] == tail
      && (key != Spelt(ar, how) ==> last[|tail| + 1..] == ns) && '/' !in last
  {
    LowerIsPlain(ar.resource);
    LowerIsPlain(ar.kind);
    hide Lower, First;
    var last, tail := End(ar, ns, how, key), Tail(ar, how);
    FirstIs(last, '@', |tail|);
  }

  lemma LastSegmentIs(before: string, last: string)
    requires '/' !in last && (before == "" || before[|before| - 1] == '/')
    ensures LastSlash(before + last) == |before| - 1 && LastSegment(before + last) == last
  {
    var key := before + last;
    assert forall j :: |before| <= j < |key| ==> key[j] in last;
    assert before != "" ==> key[|before| - 1] == '/';
    hide LastSlash;
  }

  lemma KeyIsJoined(ar: KindRef, ns: string, how: Spelling, key: string)
    requires Spells(ar, ns, how, key)
    ensures key == Before(ar, how) + End(ar, ns, how, key)
  {
    hide Before, Tail, Spellable;
  }

  lemma BeforeEndsInSlash(ar: KindRef, how: Spelling)
    ensures var head, before := Head(ar, how), Before(ar, how);
      && (head.None? <==> before == "")
      && (head.Some? ==> before[|before| - 1] == '/' && before[..|before| - 1] == head.value)
  {
    hide Lower;
  }

  /** The last slash of a spelt key stands before its end. */
  lemma KeyEnd(ar: KindRef, ns: string, how: Spelling, key: string)
    requires PlainKind(ar) && '/' !in ns && Spells(ar, ns, how, key)
    ensures var head := Head(ar, how);
      && LastSegment(key) == End(ar, ns, how, key)
      && (if head.None? then LastSlash(key) == -1
          else 0 <= LastSlash(key) && key[..LastSlash(key)] == head.value)
  {
    EndParts(ar, ns, how, key);
    hide First, LastSlash, LastSegment, Tail, Lower, Head, Before, End, PlainKind;
    var before, last := Before(ar, how), End(ar, ns, how, key);
    KeyIsJoined(ar, ns, how, key);
    BeforeEndsInSlash(ar, how);
    LastSegmentIs(before, last);
    hide Spells;
    assert before != "" ==> key[..|before| - 1] == before[..|before| - 1];
  }

  /** A spelt key falls into its parts again. */
  lemma KeyParts(ar: KindRef, ns: string, how: Spelling, key: string)
    requires PlainKind(ar) && '/' !in ns && Spells(ar, ns, how, key)
    ensures KeyPlural(key) == WithoutLayout(Tail(ar, how))
    ensures KeyNamespace(key) == if key == Spelt(ar, how) then None else Some(ns)
    ensures KeyNamespace(key).Some? ==> ns != ""
    ensures var head := Head(ar, how);
            if head.None? then LastSlash(key) == -1
            else 0 <= LastSlash(key) && key[..LastSlash(key)] == head.value
  {
    KeyEnd(ar, ns, how, key);
    EndParts(ar, ns, how, key);
    hide First, LastSlash, LastSegment, Tail, Lower, Head, WithoutLayout;
    var tail := Tail(ar, how);
    assert tail[..|tail|] == tail;
    if key == Spelt(ar, how) { assert End(ar, ns, how, key) == tail; }
  }

  /** What a key of one kind resolves to: the kind of that name in the registry, as long as
      it answers to the version or group spelt out in the key. */
  lemma ResolvesIff(reg: Registry, ar: KindRef, ns: string, how: Spelling, key: string, k: KindRef)
    requires PlainKind(ar) && '/' !in ns && Spells(ar, ns, how, key)
    ensures var head := Head(ar, how);
            ResolveViewKey(reg, key) == Some(k)
            <==> reg(Asked(ar, how)) == Some(k) && (head.Some? ==> NamesVersionOrGroup(head.value, k))
  {
    KeyParts(ar, ns, how, key);
    LowerTwice(ar.apiVersion);
    LowerTwice(ar.group);
    hide KeyPlural, LastSlash, Lower, Qualified, GroupOf, WithoutLayout;
  }

  /** So a key resolves to its own kind exactly when the registry knows the kind under the
      name that is asked for. */
  lemma OwnKindIff(reg: Registry, ar: KindRef, ns: string, how: Spelling, key: string)
    requires PlainKind(ar) && '/' !in ns && Spells(ar, ns, how, key)
    ensures ResolveViewKey(reg, key) == Some(ar) <==> reg(Asked(ar, how)) == Some(ar)
  {
    ResolvesIff(reg, ar, ns, how, key, ar);
  }

  /** A rule that applies to an object is keyed for every namespace or for that
      object's own. */
  lemma LookupKeyScope(ar: KindRef, ns: string, key: string)
    requires PlainKind(ar) && '/' !in ns && key in LookupKeys(ar, ns)
    ensures KeyNamespace(key) == None || (ns != "" && KeyNamespace(key) == Some(ns))
  {
    LookupKeysAreSpelt(ar, ns, key);
    var how :| Spells(ar, ns, how, key);
    KeyParts(ar, ns, how, key);
  }

  /** What the registry is asked for, on the kinds that Kubernetes serves: the plural, qualified
      by the group where the kind has one and the key says it, or the kind's own name. */
  lemma AskedName(ar: KindRef, how: Spelling, version: string)
    requires PlainKind(ar) && ':' !in ar.resource && ':' !in ar.kind && '/' !in ar.group && Lower(ar.group) != "v1"
    requires ar.apiVersion == if ar.group == "" then "v1" else ar.group + "/" + version
    requires Spellable(ar, how)
    ensures Asked(ar, how)
         == match how
            case ByKind => Lower(ar.kind)
            case ByPlural => Lower(ar.resource)
            case _ => if ar.group == "" then Lower(ar.resource) else Lower(ar.resource) + "." + Lower(ar.group)
  {
    hide PlainKind;
    NoColon(ar.resource);
    NoColon(ar.kind);
    NoSlash(ar.group);
    if how.ByGroup? {
      assert Lower(ar.group)[..|Lower(ar.group)|] == Lower(ar.group);
    }
    if how.ByVersion? {
      if ar.group == "" {
        assert Lower("v1") == "v1" && "v1"[..2] == "v1";
      } else {
        LowerJoin(ar.group, "/" + version);
        var v := Lower(ar.apiVersion);
        assert v[|Lower(ar.group)|] == '/';
        FirstIs(v, '/', |Lower(ar.group)|);
        assert v[..|Lower(ar.group)|] == Lower(ar.group);
      }
    }
  }

  /** A key for a named layout is a key of the plural. */
  lemma LayoutIsIgnored(plural: string, layout: string, ns: Option<string>)
    requires PlainName(plural) && ':' !in plural && PlainName(layout) && (ns.Some? ==> '/' !in ns.value)
    ensures KeyPlural(plural + ":" + layout + if ns.Some? then "@" + ns.value else "") == plural
  {
    var name := plural + ":" + layout;
    var key := name + if ns.Some? then "@" + ns.value else "";
    assert name[|plural|] == ':' && '/' !in key && LastSlash(key) == -1 && key[0..] == key;
    FirstIs(key, '@', |name|);
    assert key[..|name|] == name;
    FirstIs(name, ':', |plural|);
    assert name[..|plural|] == plural;
  }

  lemma NoColon(s: string)
    requires ':' !in s
    ensures WithoutLayout(Lower(s)) == Lower(s)
  {
    assert ':' !in Lower(s);
    assert Lower(s)[..|Lower(s)|] == Lower(s);
  }

  lemma NoSlash(s: string)
    requires '/' !in s
    ensures '/' !in Lower(s)
  {
  }

  lemma LowerJoin(a: string, b: string)
    ensures Lower(a + b) == Lower(a) + Lower(b)
  {
  }
}
