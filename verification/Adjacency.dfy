/** The gather plan of src/adjacent.rs: one table of reference rules read
    forwards (what an object names) and backwards (what names it). */
module Adjacency {
  import opened Wrappers
  import opened Text
  import opened Pointer
  import opened ViewKeys

  datatype Reverse = ByNamespace | ByCluster | Never

  datatype RefRule = RefRule(
    from: string, path: string, namespacePath: Option<string>,
    kind: string, kindPath: Option<string>, kinds: seq<string>,
    groupPath: Option<string>, group: Option<string>, reverse: Reverse)
  {
    predicate Dynamic() { kindPath.Some? }
  }

  /** An object: its own namespace, and its serialized form. */
  datatype Object = Object(namespace: Option<string>, value: Json) {
    function RowNamespace(): string { if namespace.Some? then namespace.value else "" }
  }

  // ----- names -------------------------------------------------------------

  predicate SameKind(a: KindRef, b: KindRef) { a.resource == b.resource && a.group == b.group }

  predicate KindIsNamed(kind: KindRef, name: string) {
    || EqIgnoreCase(kind.kind, name)
    || EqIgnoreCase(kind.plural, name)
    || (kind.group != "" && EqIgnoreCase(kind.plural + "." + kind.group, name))
  }

  function GivenGroup(rule: RefRule, hit: Hit): Option<string> {
    if hit.group.Some? then hit.group else rule.group
  }

  predicate ElementNames(rule: RefRule, hit: Hit, kind: KindRef, named: string) {
    && KindIsNamed(kind, named)
    && var g := GivenGroup(rule, hit); g.None? || EqIgnoreCase(kind.group, g.value)
  }

  predicate DefaultNames(rule: RefRule, hit: Hit, default: KindRef, kind: KindRef) {
    var g := GivenGroup(rule, hit);
    if g.Some? then EqIgnoreCase(kind.kind, default.kind) && EqIgnoreCase(kind.group, g.value)
    else SameKind(default, kind)
  }

  function RuleHits(value: Json, rule: RefRule): seq<Hit> {
    PointerHits(value, rule.path, rule.namespacePath, rule.kindPath, rule.groupPath)
  }

  // ----- candidate targets of a rule ----------------------------------------

  datatype Targets = Targets(all: seq<KindRef>, default: Option<KindRef>, stray: bool)

  predicate Holds(kinds: seq<KindRef>, k: KindRef) { exists t :: t in kinds && SameKind(t, k) }

  function Candidates(reg: Registry, names: seq<string>): seq<KindRef> {
    if names == [] then []
    else
      var before := Candidates(reg, names[..|names| - 1]);
      var k := reg(names[|names| - 1]);
      if k.None? || Holds(before, k.value) then before else before + [k.value]
  }

  function Resolve(reg: Registry, rule: RefRule): Targets {
    var default := if rule.kind != "" then reg(rule.kind) else None;
    if !rule.Dynamic() then
      Targets(if default.Some? then [default.value] else [], default, false)
    else
      var all := Candidates(reg, rule.kinds);
      if default.Some? && Holds(all, default.value) then Targets(all, default, false)
      else Targets(all, None, default.Some?)
  }

  method ResolveCandidates(reg: Registry, names: seq<string>) returns (all: seq<KindRef>)
    ensures all == Candidates(reg, names)
  {
    all := [];
    for i := 0 to |names|
      invariant all == Candidates(reg, names[..i])
    {
      assert names[..i + 1][..i] == names[..i];
      var candidate := reg(names[i]);
      if candidate.Some? && !Holds(all, candidate.value) {
        all := all + [candidate.value];
      }
    }
    assert names[..|names|] == names;
  }

  /** The candidates are pairwise different kinds. */
  lemma {:induction false} CandidatesAreDistinct(reg: Registry, names: seq<string>, i: nat, j: nat)
    requires i < j < |Candidates(reg, names)|
    ensures !SameKind(Candidates(reg, names)[i], Candidates(reg, names)[j])
  {
    var before := Candidates(reg, names[..|names| - 1]);
    if j < |before| {
      CandidatesAreDistinct(reg, names[..|names| - 1], i, j);
    } else {
      assert before[i] in before;
    }
  }

  /** Every name of the rule that resolves is represented among them. */
  lemma {:induction false} CandidatesCover(reg: Registry, names: seq<string>, n: string)
    requires n in names && reg(n).Some?
    ensures Holds(Candidates(reg, names), reg(n).value)
  {
    var front, last := names[..|names| - 1], names[|names| - 1];
    var before, all := Candidates(reg, front), Candidates(reg, names);
    assert names == front + [last];
    if n in front {
      CandidatesCover(reg, front, n);
      var t :| t in before && SameKind(t, reg(n).value);
      assert t in all;
    } else if !Holds(before, reg(n).value) {
      assert all == before + [reg(n).value] && reg(n).value in all;
    }
  }

  lemma {:induction false} CandidatesAreServed(reg: Registry, names: seq<string>, k: KindRef)
    requires k in Candidates(reg, names)
    ensures exists n :: n in names && reg(n) == Some(k)
  {
    var front, last := names[..|names| - 1], names[|names| - 1];
    assert names == front + [last];
    if k in Candidates(reg, front) {
      CandidatesAreServed(reg, front, k);
    } else {
      assert last in names && reg(last) == Some(k);
    }
  }

  /** When a rule's own kind is its default: a rule of one kind has that kind whenever it is
      served; a rule with kinds to choose from has it only if it is one of them, and otherwise
      the plan says so. */
  lemma DefaultKind(reg: Registry, rule: RefRule)
    ensures var t, own := Resolve(reg, rule), if rule.kind == "" then None else reg(rule.kind);
      && (rule.kindPath.None? ==> t.default == own && t.all == (if own.Some? then [own.value] else []) && !t.stray)
      && (rule.kindPath.Some? ==>
            var among := own.Some? && exists n :: n in rule.kinds && reg(n).Some? && SameKind(reg(n).value, own.value);
            t.default == (if among then own else None) && (t.stray <==> own.Some? && !among))
  {
    if rule.Dynamic() && rule.kind != "" && reg(rule.kind).Some? {
      var own := reg(rule.kind).value;
      if k :| k in Candidates(reg, rule.kinds) && SameKind(k, own) { CandidatesAreServed(reg, rule.kinds, k); }
      if n :| n in rule.kinds && reg(n).Some? && SameKind(reg(n).value, own) {
        CandidatesCover(reg, rule.kinds, n);
        var t :| t in Candidates(reg, rule.kinds) && SameKind(t, reg(n).value);
        assert SameKind(t, own);
      }
    }
  }

  /** The first candidate from `i` on that an element naming kind `named` names. */
  function FirstElement(rule: RefRule, hit: Hit, named: string, all: seq<KindRef>, i: nat): (at: nat)
    requires i <= |all|
    ensures i <= at <= |all| && forall j :: i <= j < at ==> !ElementNames(rule, hit, all[j], named)
    ensures at < |all| ==> ElementNames(rule, hit, all[at], named)
    decreases |all| - i
  {
    if i == |all| || ElementNames(rule, hit, all[i], named) then i else FirstElement(rule, hit, named, all, i + 1)
  }

  /** The first candidate from `i` on that an element without a kind names through the
      default. */
  function FirstDefault(rule: RefRule, hit: Hit, default: KindRef, all: seq<KindRef>, i: nat): (at: nat)
    requires i <= |all|
    ensures i <= at <= |all| && forall j :: i <= j < at ==> !DefaultNames(rule, hit, default, all[j])
    ensures at < |all| ==> DefaultNames(rule, hit, default, all[at])
    decreases |all| - i
  {
    if i == |all| || DefaultNames(rule, hit, default, all[i]) then i else FirstDefault(rule, hit, default, all, i + 1)
  }

  function PickAt(t: Targets, rule: RefRule, hit: Hit): nat {
    if !rule.Dynamic() then 0
    else if hit.kind.Some? then FirstElement(rule, hit, hit.kind.value, t.all, 0)
    else if t.default.Some? then FirstDefault(rule, hit, t.default.value, t.all, 0)
    else |t.all|
  }

  function Pick(t: Targets, rule: RefRule, hit: Hit): Option<KindRef> {
    var at := PickAt(t, rule, hit);
    if at < |t.all| then Some(t.all[at]) else None
  }

  predicate Unreachable(rule: RefRule, fromNamespaced: bool, toNamespaced: bool) {
    !fromNamespaced && toNamespaced && rule.namespacePath.None?
  }

  // ----- forwards ------------------------------------------------------------

  datatype Ref = Ref(target: KindRef, name: string, ns: string)

  datatype Warn = StrayDefault | NeedsNamespacePath | NoNamespace(name: string)

  datatype Outcome = Silent | Warned(warn: Warn) | Reads(ref: Ref)

  /** What the forward loop does with one hit. */
  function HitOutcome(rule: RefRule, t: Targets, source: KindRef, o: Object, hit: Hit): Outcome {
    var target := Pick(t, rule, hit);
    if target.None? then Silent
    else if rule.Dynamic() && Unreachable(rule, source.namespaced, target.value.namespaced) then
      Warned(NeedsNamespacePath)
    else if hit.namespace.Some? then Reads(Ref(target.value, hit.name, hit.namespace.value))
    else if !target.value.namespaced || o.RowNamespace() != "" then
      Reads(Ref(target.value, hit.name, o.RowNamespace()))
    else Warned(NoNamespace(hit.name))
  }

  function RefsOfHits(rule: RefRule, t: Targets, source: KindRef, o: Object, hits: seq<Hit>): seq<Ref> {
    if hits == [] then []
    else
      var before := RefsOfHits(rule, t, source, o, hits[..|hits| - 1]);
      var out := HitOutcome(rule, t, source, o, hits[|hits| - 1]);
      if out.Reads? then before + [out.ref] else before
  }

  predicate Skipped(rule: RefRule, t: Targets, source: KindRef) {
    t.all == [] || (!rule.Dynamic() && Unreachable(rule, source.namespaced, t.all[0].namespaced))
  }

  /** Every reference one rule yields for `o`, in document order. */
  function ForwardRefs(reg: Registry, rule: RefRule, source: KindRef, o: Object): seq<Ref> {
    var t := Resolve(reg, rule);
    if Skipped(rule, t, source) then []
    else RefsOfHits(rule, t, source, o, RuleHits(o.value, rule))
  }

  datatype Forward = Forward(target: KindRef, refs: seq<(string, string)>)

  function RefsTo(refs: seq<Ref>, target: KindRef): seq<(string, string)> {
    if refs == [] then []
    else
      var before, last := RefsTo(refs[..|refs| - 1], target), refs[|refs| - 1];
      if last.target == target then before + [(last.name, last.ns)] else before
  }

  /** `a` is named, and no later than `b` for the first time. */
  ghost predicate NamedFirst(refs: seq<Ref>, a: KindRef, b: KindRef) {
    exists k :: 0 <= k < |refs| && refs[k].target == a && forall m :: 0 <= m < k ==> refs[m].target != b
  }

  ghost predicate InOrder(forwards: seq<Forward>, refs: seq<Ref>) {
    forall i, j :: 0 <= i < j < |forwards| ==>
      forwards[i].target != forwards[j].target && NamedFirst(refs, forwards[i].target, forwards[j].target)
  }

  ghost predicate Complete(forwards: seq<Forward>, refs: seq<Ref>) {
    && (forall f :: f in forwards ==> f.refs != [] && f.refs == RefsTo(refs, f.target))
    && (forall r :: r in refs ==> exists f :: f in forwards && f.target == r.target)
  }

  /** One entry per target in the order they are first named, holding all of that target's
      references in order. */
  ghost predicate Grouped(forwards: seq<Forward>, refs: seq<Ref>) {
    InOrder(forwards, refs) && Complete(forwards, refs)
  }

  lemma RefsToOne(refs: seq<Ref>, r: Ref, target: KindRef)
    ensures RefsTo(refs + [r], target)
         == RefsTo(refs, target) + if r.target == target then [(r.name, r.ns)] else []
  {
    assert (refs + [r])[..|refs|] == refs;
  }

  lemma NamedFirstStays(refs: seq<Ref>, r: Ref, a: KindRef, b: KindRef)
    requires NamedFirst(refs, a, b)
    ensures NamedFirst(refs + [r], a, b)
  {
    var k :| 0 <= k < |refs| && refs[k].target == a && forall m :: 0 <= m < k ==> refs[m].target != b;
    assert (refs + [r])[k].target == a && forall m :: 0 <= m < k ==> (refs + [r])[m].target != b;
  }

  lemma FirstOfNone(refs: seq<Ref>, r: Ref, a: KindRef)
    requires (exists s :: s in refs && s.target == a) && (forall s :: s in refs ==> s.target != r.target)
    ensures NamedFirst(refs + [r], a, r.target)
  {
    var s :| s in refs && s.target == a;
    var k :| 0 <= k < |refs| && refs[k] == s;
    assert (refs + [r])[k].target == a && forall m :: 0 <= m < k ==> (refs + [r])[m] in refs;
  }

  lemma OrderStays(forwards: seq<Forward>, grown: seq<Forward>, refs: seq<Ref>, r: Ref)
    requires InOrder(forwards, refs) && |grown| == |forwards|
    requires forall i :: 0 <= i < |grown| ==> grown[i].target == forwards[i].target
    ensures InOrder(grown, refs + [r])
  {
    hide NamedFirst;
    forall i, j | 0 <= i < j < |grown|
      ensures grown[i].target != grown[j].target && NamedFirst(refs + [r], grown[i].target, grown[j].target)
    {
      NamedFirstStays(refs, r, forwards[i].target, forwards[j].target);
    }
  }

  lemma OrderGrows(forwards: seq<Forward>, refs: seq<Ref>, r: Ref, f: Forward)
    requires Grouped(forwards, refs) && f.target == r.target && forall s :: s in refs ==> s.target != r.target
    ensures InOrder(forwards + [f], refs + [r])
  {
    hide NamedFirst, RefsTo;
    var grown := forwards + [f];
    forall i, j | 0 <= i < j < |grown|
      ensures grown[i].target != grown[j].target && NamedFirst(refs + [r], grown[i].target, grown[j].target)
    {
      assert forwards[i] in forwards;
      NamedTarget(refs, forwards[i].target);
      if j < |forwards| {
        NamedFirstStays(refs, r, forwards[i].target, forwards[j].target);
      } else {
        FirstOfNone(refs, r, forwards[i].target);
      }
    }
  }

  lemma {:induction false} NamedTarget(refs: seq<Ref>, target: KindRef)
    ensures RefsTo(refs, target) != [] ==> exists s :: s in refs && s.target == target
  {
    if RefsTo(refs, target) != [] {
      var n := |refs| - 1;
      NamedTarget(refs[..n], target);
      assert refs[n] in refs;
    }
  }

  lemma GroupedReplace(forwards: seq<Forward>, refs: seq<Ref>, r: Ref, i: nat)
    requires Grouped(forwards, refs) && i < |forwards| && forwards[i].target == r.target
    ensures Grouped(forwards[i := Forward(r.target, forwards[i].refs + [(r.name, r.ns)])], refs + [r])
  {
    var grown := forwards[i := Forward(r.target, forwards[i].refs + [(r.name, r.ns)])];
    OrderStays(forwards, grown, refs, r);
    hide RefsTo, NamedFirst;
    forall j | 0 <= j < |grown|
      ensures grown[j].refs != [] && grown[j].refs == RefsTo(refs + [r], grown[j].target)
    {
      assert forwards[j] in forwards;
      assert j != i ==> forwards[j].target != r.target;
      RefsToOne(refs, r, forwards[j].target);
    }
    forall s | s in refs + [r] ensures exists g :: g in grown && g.target == s.target {
      var k :| 0 <= k < |forwards| && forwards[k].target == s.target;
      assert grown[k] in grown;
    }
  }

  lemma GroupedAppend(forwards: seq<Forward>, refs: seq<Ref>, r: Ref)
    requires Grouped(forwards, refs) && forall f :: f in forwards ==> f.target != r.target
    ensures Grouped(forwards + [Forward(r.target, [(r.name, r.ns)])], refs + [r])
  {
    var f := Forward(r.target, [(r.name, r.ns)]);
    var grown := forwards + [f];
    NoRefsTo(refs, r.target);
    OrderGrows(forwards, refs, r, f);
    hide RefsTo, InOrder;
    forall g | g in grown ensures g.refs != [] && g.refs == RefsTo(refs + [r], g.target) {
      RefsToOne(refs, r, g.target);
    }
    forall s | s in refs + [r] ensures exists g :: g in grown && g.target == s.target {
      if s in refs {
        var g :| g in forwards && g.target == s.target;
        assert g in grown;
      } else {
        assert grown[|forwards|] in grown;
      }
    }
  }

  method AddRef(forwards: seq<Forward>, ghost refs: seq<Ref>, r: Ref) returns (grown: seq<Forward>)
    requires Grouped(forwards, refs)
    ensures Grouped(grown, refs + [r])
  {
    hide Grouped;
    var i := 0;
    while i < |forwards| && forwards[i].target != r.target
      invariant 0 <= i <= |forwards|
      invariant forall j :: 0 <= j < i ==> forwards[j].target != r.target
    {
      i := i + 1;
    }
    if i < |forwards| {
      GroupedReplace(forwards, refs, r, i);
      grown := forwards[i := Forward(r.target, forwards[i].refs + [(r.name, r.ns)])];
    } else {
      GroupedAppend(forwards, refs, r);
      grown := forwards + [Forward(r.target, [(r.name, r.ns)])];
    }
  }

  lemma {:induction false} NoRefsTo(refs: seq<Ref>, target: KindRef)
    requires forall r :: r in refs ==> r.target != target
    ensures RefsTo(refs, target) == []
  {
    if refs != [] {
      assert forall r :: r in refs[..|refs| - 1] ==> r in refs;
      NoRefsTo(refs[..|refs| - 1], target);
      assert refs[|refs| - 1] in refs;
    }
  }

  /** A picked hit was either read or warned about. */
  ghost predicate Accounted(
    rule: RefRule, t: Targets, source: KindRef, o: Object, hit: Hit, refs: seq<Ref>, warns: seq<Warn>)
  {
    match HitOutcome(rule, t, source, o, hit)
    case Reads(r) => r in refs
    case Warned(w) => w in warns
    case Silent => Pick(t, rule, hit).None?
  }

  /** Some element gives this warning. */
  ghost predicate Caused(rule: RefRule, t: Targets, source: KindRef, o: Object, hits: seq<Hit>, w: Warn) {
    exists h :: h in hits && HitOutcome(rule, t, source, o, h) == Warned(w)
  }

  lemma AccountedGrows(
    rule: RefRule, t: Targets, source: KindRef, o: Object, hits: seq<Hit>,
    refs: seq<Ref>, warns: seq<Warn>, refs': seq<Ref>, warns': seq<Warn>)
    requires forall h :: h in hits ==> Accounted(rule, t, source, o, h, refs, warns)
    requires refs <= refs' && warns <= warns'
    ensures forall h :: h in hits ==> Accounted(rule, t, source, o, h, refs', warns')
  {
    assert forall r :: r in refs ==> r in refs';
    assert forall w :: w in warns ==> w in warns';
  }

  /** The forward half of `plan` for one rule. Nothing is dropped in silence
      once a target kind has been picked for it. */
  method PlanRule(reg: Registry, rule: RefRule, source: KindRef, o: Object)
    returns (forwards: seq<Forward>, warns: seq<Warn>)
    ensures Grouped(forwards, ForwardRefs(reg, rule, source, o))
    ensures var t := Resolve(reg, rule);
            if t.all == [] then warns == []
            else if Skipped(rule, t, source) then warns == [NeedsNamespacePath]
            else && (forall h :: h in RuleHits(o.value, rule) ==>
                       Accounted(rule, t, source, o, h, ForwardRefs(reg, rule, source, o), warns))
                 && forall w :: w in warns ==> Caused(rule, t, source, o, RuleHits(o.value, rule), w)
  {
    forwards, warns := [], [];
    var t := Resolve(reg, rule);
    if t.all == [] { return; }
    if !rule.Dynamic() && Unreachable(rule, source.namespaced, t.all[0].namespaced) {
      warns := [NeedsNamespacePath];
      return;
    }
    forwards, warns := ReadHits(rule, t, source, o, RuleHits(o.value, rule));
  }

  method ReadHits(rule: RefRule, t: Targets, source: KindRef, o: Object, hits: seq<Hit>)
    returns (forwards: seq<Forward>, warns: seq<Warn>)
    ensures Grouped(forwards, RefsOfHits(rule, t, source, o, hits))
    ensures forall h :: h in hits ==>
              Accounted(rule, t, source, o, h, RefsOfHits(rule, t, source, o, hits), warns)
    ensures forall w :: w in warns ==> Caused(rule, t, source, o, hits, w)
  {
    forwards, warns := [], [];
    ghost var refs: seq<Ref> := [];
    for i := 0 to |hits|
      invariant refs == RefsOfHits(rule, t, source, o, hits[..i])
      invariant Grouped(forwards, refs)
      invariant forall h :: h in hits[..i] ==> Accounted(rule, t, source, o, h, refs, warns)
      invariant forall w :: w in warns ==> Caused(rule, t, source, o, hits, w)
    {
      ghost var refs0, warns0 := refs, warns;
      var outcome := HitOutcome(rule, t, source, o, hits[i]);
      match outcome {
        case Silent =>
        case Warned(w) => if w.NoNamespace? || w !in warns { warns := warns + [w]; }
        case Reads(r) =>
          forwards := AddRef(forwards, refs, r);
          refs := refs + [r];
      }
      assert hits[..i + 1][..i] == hits[..i];
      assert hits[..i + 1] == hits[..i] + [hits[i]];
      AccountedGrows(rule, t, source, o, hits[..i], refs0, warns0, refs, warns);
      assert Accounted(rule, t, source, o, hits[i], refs, warns);
    }
    assert hits[..|hits|] == hits;
  }

  // ----- backwards -------------------------------------------------------------

  predicate HitNamesKind(rule: RefRule, hit: Hit, default: Option<KindRef>, kind: KindRef) {
    if !rule.Dynamic() then true
    else if hit.kind.Some? then ElementNames(rule, hit, kind, hit.kind.value)
    else default.Some? && DefaultNames(rule, hit, default.value, kind)
  }

  predicate HitNamesSource(
    rule: RefRule, default: Option<KindRef>, o: Object, source: KindRef,
    name: string, ns: Option<string>, hit: Hit)
  {
    && hit.name == name
    && HitNamesKind(rule, hit, default, source)
    && (ns.Some? ==> (if rule.namespacePath.Some? then hit.namespace else o.namespace) == ns)
  }

  /** `names_source`: whether `o` names the selection. */
  predicate NamesSource(
    o: Object, rule: RefRule, default: Option<KindRef>, source: KindRef, name: string, ns: Option<string>)
  {
    exists h :: h in RuleHits(o.value, rule) && HitNamesSource(rule, default, o, source, name, ns, h)
  }

  datatype Backward = Backward(from: KindRef, scope: string, default: Option<KindRef>)

  /** The backward half of `plan` for one rule: where usages are listed. */
  function BackwardFor(reg: Registry, rule: RefRule, source: KindRef, ns: string, tableNs: string): Option<Backward> {
    var t := Resolve(reg, rule);
    var from := ResolveViewKey(reg, rule.from);
    if rule.reverse.Never? || !Holds(t.all, source) || from.None?
       || Unreachable(rule, from.value.namespaced, source.namespaced) then None
    else
      var pinned := KeyNamespace(rule.from);
      var scope :=
        if pinned.Some? && from.value.namespaced then pinned.value
        else if pinned.None? && rule.reverse.ByNamespace? && from.value.namespaced then
          (if ns == "" then tableNs else ns)
        else "";
      Some(Backward(from.value, scope, t.default))
  }

  // ----- the two readings agree --------------------------------------------------

  /** Candidate `i` answers to the element and no earlier one does. */
  predicate FirstNamed(rule: RefRule, t: Targets, hit: Hit, i: nat)
    requires i < |t.all|
  {
    HitNamesKind(rule, hit, t.default, t.all[i]) && NoEarlier(rule, t, hit, i)
  }

  predicate NoEarlier(rule: RefRule, t: Targets, hit: Hit, i: nat)
    requires i < |t.all|
  {
    forall j :: 0 <= j < i ==> !HitNamesKind(rule, hit, t.default, t.all[j])
  }

  /** Picking forwards and testing backwards are two readings of one element: what is
      picked is the first candidate that passes the test, and something is picked exactly
      when some candidate passes it. */
  lemma PickIsNamed(t: Targets, rule: RefRule, hit: Hit)
    ensures var at := PickAt(t, rule, hit); at < |t.all| ==> FirstNamed(rule, t, hit, at)
    ensures Pick(t, rule, hit).None? <==> forall k :: k in t.all ==> !HitNamesKind(rule, hit, t.default, k)
  {
    if PickAt(t, rule, hit) < |t.all| { assert t.all[PickAt(t, rule, hit)] in t.all; }
  }

  lemma TargetsAreDistinct(reg: Registry, rule: RefRule, i: nat, j: nat)
    requires i < j < |Resolve(reg, rule).all|
    ensures Resolve(reg, rule).all[i] != Resolve(reg, rule).all[j]
  {
    CandidatesAreDistinct(reg, rule.kinds, i, j);
  }

  /** A candidate is picked exactly when it answers and no earlier one does. */
  lemma PickIsFirst(reg: Registry, rule: RefRule, hit: Hit, i: nat)
    requires i < |Resolve(reg, rule).all|
    ensures var t := Resolve(reg, rule); Pick(t, rule, hit) == Some(t.all[i]) <==> FirstNamed(rule, t, hit, i)
  {
    hide Resolve, PickAt, HitNamesKind;
    var t := Resolve(reg, rule);
    PickIsNamed(t, rule, hit);
    var at := PickAt(t, rule, hit);
    assert t.all[i] in t.all;
    if at < i { TargetsAreDistinct(reg, rule, at, i); }
    if i < at < |t.all| { TargetsAreDistinct(reg, rule, i, at); }
  }

  /** The names a kind goes by, in lower case. */
  function NamesOf(k: KindRef): set<string> {
    {Lower(k.kind), Lower(k.plural)} + if k.group == "" then {} else {Lower(k.plural + "." + k.group)}
  }

  /** An element that says its kind goes to the first candidate of that name, in the group the
      element says, else in the rule's, else in any. */
  lemma PickByName(reg: Registry, rule: RefRule, hit: Hit, i: nat)
    requires i < |Resolve(reg, rule).all| && rule.Dynamic() && hit.kind.Some?
    ensures var t := Resolve(reg, rule);
            var group := if hit.group.Some? then hit.group else rule.group;
            Pick(t, rule, hit) == Some(t.all[i])
            <==> && Lower(hit.kind.value) in NamesOf(t.all[i])
                 && (group.Some? ==> Lower(t.all[i].group) == Lower(group.value))
                 && forall j :: 0 <= j < i && Lower(hit.kind.value) in NamesOf(t.all[j]) ==>
                      group.Some? && Lower(t.all[j].group) != Lower(group.value)
  {
    hide Resolve, PickAt, Lower;
    PickIsFirst(reg, rule, hit, i);
  }

  /** An element that says no kind goes to the first candidate of the default's own kind, or
      of its kind's name in the group that the element or the rule says. */
  lemma PickByDefault(reg: Registry, rule: RefRule, hit: Hit, i: nat)
    requires i < |Resolve(reg, rule).all| && rule.Dynamic() && hit.kind.None?
    ensures var t := Resolve(reg, rule);
            var group := if hit.group.Some? then hit.group else rule.group;
            Pick(t, rule, hit) == Some(t.all[i])
            <==> && t.default.Some?
                 && (if group.None? then SameKind(t.default.value, t.all[i])
                     else Lower(t.all[i].kind) == Lower(t.default.value.kind)
                          && Lower(t.all[i].group) == Lower(group.value))
                 && forall j :: 0 <= j < i ==>
                      if group.None? then !SameKind(t.default.value, t.all[j])
                      else Lower(t.all[j].kind) == Lower(t.default.value.kind) ==>
                             Lower(t.all[j].group) != Lower(group.value)
  {
    hide Resolve, PickAt, Lower;
    PickIsFirst(reg, rule, hit, i);
  }

  lemma {:induction false} RefComesFromHit(
    rule: RefRule, t: Targets, source: KindRef, o: Object, hits: seq<Hit>, r: Ref)
    ensures r in RefsOfHits(rule, t, source, o, hits)
       <==> exists h :: h in hits && HitOutcome(rule, t, source, o, h) == Reads(r)
  {
    if hits != [] {
      var front, last := hits[..|hits| - 1], hits[|hits| - 1];
      RefComesFromHit(rule, t, source, o, front, r);
      assert hits == front + [last];
      if r in RefsOfHits(rule, t, source, o, front) {
        var h :| h in front && HitOutcome(rule, t, source, o, h) == Reads(r);
        assert h in hits;
      } else if HitOutcome(rule, t, source, o, last) == Reads(r) {
        assert last in hits;
      }
    }
  }

  /** The namespace the gather passes for a selection of kind `target`. */
  function SelectionNamespace(target: KindRef, ns: string): Option<string> {
    if target.namespaced then Some(ns) else None
  }

  /** Hit by hit, for every rule and object: a forward reference is recognised
      backwards exactly when the target is cluster-scoped, the rule has no
      `namespace_path`, or the element carries a namespace. */
  lemma ForwardIsBackwardIff(reg: Registry, rule: RefRule, source: KindRef, o: Object, hit: Hit, r: Ref)
    requires hit in RuleHits(o.value, rule)
    requires HitOutcome(rule, Resolve(reg, rule), source, o, hit) == Reads(r)
    ensures HitNamesSource(rule, Resolve(reg, rule).default, o, r.target, r.name,
                           SelectionNamespace(r.target, r.ns), hit)
       <==> !r.target.namespaced || rule.namespacePath.None? || hit.namespace.Some?
  {
    PickIsNamed(Resolve(reg, rule), rule, hit);
  }

  lemma HitNamespaceIsNonEmpty(value: Json, rule: RefRule, hit: Hit)
    requires hit in RuleHits(value, rule)
    ensures hit.namespace.Some? ==> hit.namespace.value != "" && rule.namespacePath.Some?
  {
  }

  /** Every reference to a namespaced target says which namespace to read. */
  lemma RefsToNamespacedHaveNamespace(reg: Registry, rule: RefRule, source: KindRef, o: Object, r: Ref)
    requires r in ForwardRefs(reg, rule, source, o) && r.target.namespaced
    ensures r.ns != ""
  {
    var t, hits := Resolve(reg, rule), RuleHits(o.value, rule);
    RefComesFromHit(rule, t, source, o, hits, r);
    var h :| h in hits && HitOutcome(rule, t, source, o, h) == Reads(r);
    HitNamespaceIsNonEmpty(o.value, rule, h);
  }

  /** The forward half reads `r` because of this element. */
  predicate ReadFrom(reg: Registry, rule: RefRule, source: KindRef, o: Object, hit: Hit, r: Ref) {
    var t := Resolve(reg, rule);
    !Skipped(rule, t, source) && HitOutcome(rule, t, source, o, hit) == Reads(r)
  }

  predicate RefersTo(r: Ref, target: KindRef, name: string, ns: string) {
    r.target == target && r.name == name && (target.namespaced ==> r.ns == ns)
  }

  /** The namespace a forward reference takes: the element's, else the row's. */
  function ForwardNamespace(o: Object, hit: Hit): string {
    if hit.namespace.Some? then hit.namespace.value else o.RowNamespace()
  }

  /** Element by element: what one element makes the forward half read of candidate `i`. */
  lemma ElementReadsIff(reg: Registry, rule: RefRule, source: KindRef, o: Object, i: nat, name: string, ns: string,
                        hit: Hit)
    requires i < |Resolve(reg, rule).all| && hit in RuleHits(o.value, rule)
    requires Resolve(reg, rule).all[i].namespaced ==> ns != ""
    ensures var t := Resolve(reg, rule);
            (exists r :: ReadFrom(reg, rule, source, o, hit, r) && RefersTo(r, t.all[i], name, ns))
            <==> && !Unreachable(rule, source.namespaced, t.all[i].namespaced)
                 && hit.name == name && FirstNamed(rule, t, hit, i)
                 && (t.all[i].namespaced ==> ForwardNamespace(o, hit) == ns)
  {
    PickIsFirst(reg, rule, hit, i);
    HitNamespaceIsNonEmpty(o.value, rule, hit);
    StaticTarget(reg, rule, hit, i);
    hide Resolve, RuleHits, Pick, HitNamesKind, FirstNamed;
    var t := Resolve(reg, rule);
    var out := HitOutcome(rule, t, source, o, hit);
    if out.Reads? && ReadFrom(reg, rule, source, o, hit, out.ref) {
      assert RefersTo(out.ref, t.all[i], name, ns) ==> exists r ::
        ReadFrom(reg, rule, source, o, hit, r) && RefersTo(r, t.all[i], name, ns);
    }
  }

  /** A rule without kinds of its own has one candidate, which every element names. */
  lemma StaticTarget(reg: Registry, rule: RefRule, hit: Hit, i: nat)
    requires i < |Resolve(reg, rule).all|
    ensures !rule.Dynamic() ==> i == 0 && Pick(Resolve(reg, rule), rule, hit) == Some(Resolve(reg, rule).all[0])
  {
  }

  /** The converse, exactly: an element that is recognised backwards as naming candidate
      `i` makes the forward half read it just when the kinds can reach each other and no
      earlier candidate answers to the element. */
  lemma BackwardIsForwardIff(reg: Registry, rule: RefRule, source: KindRef, o: Object, i: nat, name: string,
                             ns: string, hit: Hit)
    requires i < |Resolve(reg, rule).all| && hit in RuleHits(o.value, rule)
    requires Resolve(reg, rule).all[i].namespaced ==> ns != ""
    requires var t := Resolve(reg, rule);
             HitNamesSource(rule, t.default, o, t.all[i], name, SelectionNamespace(t.all[i], ns), hit)
    ensures var t := Resolve(reg, rule);
            (exists r :: ReadFrom(reg, rule, source, o, hit, r) && RefersTo(r, t.all[i], name, ns))
            <==> !Unreachable(rule, source.namespaced, t.all[i].namespaced) && NoEarlier(rule, t, hit, i)
  {
    ElementReadsIff(reg, rule, source, o, i, name, ns, hit);
    HitNamespaceIsNonEmpty(o.value, rule, hit);
  }

  /** A whole object: the plan reads candidate `i` under a name and namespace exactly when
      the kinds can reach each other and some element of that name takes that namespace
      and picks the candidate first. */
  lemma ReferenceIff(reg: Registry, rule: RefRule, source: KindRef, o: Object, i: nat, name: string, ns: string)
    requires i < |Resolve(reg, rule).all| && (Resolve(reg, rule).all[i].namespaced ==> ns != "")
    ensures var t := Resolve(reg, rule);
            (exists r :: r in ForwardRefs(reg, rule, source, o) && RefersTo(r, t.all[i], name, ns))
            <==> && !Unreachable(rule, source.namespaced, t.all[i].namespaced)
                 && exists hit :: && hit in RuleHits(o.value, rule) && hit.name == name
                                  && FirstNamed(rule, t, hit, i)
                                  && (t.all[i].namespaced ==> ForwardNamespace(o, hit) == ns)
  {
    hide Resolve, RuleHits, HitOutcome, FirstNamed, ForwardNamespace, Unreachable;
    var t, hits := Resolve(reg, rule), RuleHits(o.value, rule);
    forall hit | hit in hits
      ensures (exists r :: ReadFrom(reg, rule, source, o, hit, r) && RefersTo(r, t.all[i], name, ns))
              <==> && !Unreachable(rule, source.namespaced, t.all[i].namespaced)
                   && hit.name == name && FirstNamed(rule, t, hit, i)
                   && (t.all[i].namespaced ==> ForwardNamespace(o, hit) == ns)
    {
      ElementReadsIff(reg, rule, source, o, i, name, ns, hit);
    }
    if r :| r in ForwardRefs(reg, rule, source, o) && RefersTo(r, t.all[i], name, ns) {
      RefComesFromHit(rule, t, source, o, hits, r);
      var hit :| hit in hits && HitOutcome(rule, t, source, o, hit) == Reads(r);
      assert ReadFrom(reg, rule, source, o, hit, r);
    }
    if hit, r :| hit in hits && ReadFrom(reg, rule, source, o, hit, r) && RefersTo(r, t.all[i], name, ns) {
      RefComesFromHit(rule, t, source, o, hits, r);
    }
  }

  // ----- references, read off the document ------------------------------------------

  /** The element of `o` at these indices says what `hit` says, by the rule's four pointers. */
  ghost predicate Says(rule: RefRule, o: Object, at: seq<nat>, hit: Hit) {
    Element(o.value, rule.path, rule.namespacePath, rule.kindPath, rule.groupPath, at, hit)
  }

  /** Exactly what is read of an object: a reference is in the plan when the kinds can reach
      each other and some element of the document has that name, picks that target, and says
      that namespace, or says none and the object is in it. */
  lemma ReferenceIsWrittenIff(reg: Registry, rule: RefRule, source: KindRef, o: Object, r: Ref)
    ensures r in ForwardRefs(reg, rule, source, o)
       <==> && (r.target.namespaced ==> r.ns != "" && (source.namespaced || rule.namespacePath.Some?))
            && exists at, hit :: && Says(rule, o, at, hit) && hit.name == r.name
                                 && Pick(Resolve(reg, rule), rule, hit) == Some(r.target)
                                 && r.ns == if hit.namespace.Some? then hit.namespace.value else o.RowNamespace()
  {
    hide Resolve, RuleHits, HitOutcome, RefsOfHits, Pick, Says, Skipped;
    var t, hits := Resolve(reg, rule), RuleHits(o.value, rule);
    forall hit ensures hit in hits <==> exists at :: Says(rule, o, at, hit) {
      HitIsSaid(rule, o, hit);
    }
    forall hit | hit in hits
      ensures (!Skipped(rule, t, source) && HitOutcome(rule, t, source, o, hit) == Reads(r))
         <==> && (r.target.namespaced ==> r.ns != "" && (source.namespaced || rule.namespacePath.Some?))
              && hit.name == r.name && Pick(t, rule, hit) == Some(r.target)
              && r.ns == if hit.namespace.Some? then hit.namespace.value else o.RowNamespace()
    {
      HitReads(reg, rule, source, o, hit, r);
    }
    RefComesFromHit(rule, t, source, o, hits, r);
  }

  lemma HitIsSaid(rule: RefRule, o: Object, hit: Hit)
    ensures hit in RuleHits(o.value, rule) <==> exists at :: Says(rule, o, at, hit)
  {
    hide Element, PointerHits;
    HitsAreElements(o.value, rule.path, rule.namespacePath, rule.kindPath, rule.groupPath, hit);
    if at :| Element(o.value, rule.path, rule.namespacePath, rule.kindPath, rule.groupPath, at, hit) {
      assert Says(rule, o, at, hit);
    }
  }

  lemma HitReads(reg: Registry, rule: RefRule, source: KindRef, o: Object, hit: Hit, r: Ref)
    requires hit in RuleHits(o.value, rule)
    ensures var t := Resolve(reg, rule);
            (!Skipped(rule, t, source) && HitOutcome(rule, t, source, o, hit) == Reads(r))
            <==> && (r.target.namespaced ==> r.ns != "" && (source.namespaced || rule.namespacePath.Some?))
                 && hit.name == r.name && Pick(t, rule, hit) == Some(r.target)
                 && r.ns == if hit.namespace.Some? then hit.namespace.value else o.RowNamespace()
  {
    HitNamespaceIsNonEmpty(o.value, rule, hit);
    hide Candidates, RuleHits, FirstElement, FirstDefault;
  }

  /** For a rule that names its one kind: every element that says a namespace is read there,
      every other in the object's own. */
  lemma OneKindIsReadIff(reg: Registry, rule: RefRule, source: KindRef, o: Object, target: KindRef, name: string,
                         ns: string)
    requires !rule.Dynamic() && rule.kind != "" && reg(rule.kind) == Some(target)
    ensures Ref(target, name, ns) in ForwardRefs(reg, rule, source, o)
       <==> && (target.namespaced ==> ns != "" && (source.namespaced || rule.namespacePath.Some?))
            && exists at, hit :: && Says(rule, o, at, hit) && hit.name == name
                                 && ns == if hit.namespace.Some? then hit.namespace.value else o.RowNamespace()
  {
    hide ForwardRefs, Says;
    ReferenceIsWrittenIff(reg, rule, source, o, Ref(target, name, ns));
    assert forall hit :: Pick(Resolve(reg, rule), rule, hit) == Some(target);
  }

  // ----- the scope a usage is looked for in ---------------------------------------

  predicate Listed(scope: string, o: Object) { scope == "" || scope == o.RowNamespace() }

  /** End to end: if the plan for `o` reads an object by a rule that is also read
      backwards, the plan for that object lists `o`'s kind exactly when the registry knows
      the kind under the name the rule's key asks for; the scope it lists holds `o` as
      stated, and `o` is recognised there. */
  lemma ReverseLookupFindsReference(
    reg: Registry, rule: RefRule, how: Spelling, source: KindRef, o: Object, hit: Hit, r: Ref, tableNs: string)
    requires PlainKind(source) && '/' !in o.RowNamespace() && Spells(source, o.RowNamespace(), how, rule.from)
    requires !rule.reverse.Never? && !Skipped(rule, Resolve(reg, rule), source)
    requires hit in RuleHits(o.value, rule)
    requires HitOutcome(rule, Resolve(reg, rule), source, o, hit) == Reads(r)
    ensures r in ForwardRefs(reg, rule, source, o)
    ensures var selectionNs := if r.target.namespaced then r.ns else "";
            var b := BackwardFor(reg, rule, r.target, selectionNs, tableNs);
            && (b.Some? && b.value.from == source <==> reg(Asked(source, how)) == Some(source))
            && (b.Some? && b.value.from == source ==>
                  && (!r.target.namespaced || rule.namespacePath.None? || hit.namespace.Some? ==>
                        NamesSource(o, rule, b.value.default, r.target, r.name, SelectionNamespace(r.target, r.ns)))
                  && (Listed(b.value.scope, o) <==>
                        || rule.reverse.ByCluster? || !source.namespaced || KeyNamespace(rule.from).Some?
                        || Listed(if selectionNs == "" then tableNs else selectionNs, o))
                  && (r.target.namespaced && rule.namespacePath.None? ==> Listed(b.value.scope, o)))
  {
    hide RuleHits, RefsOfHits, KeyNamespace, ResolveViewKey, Spells, Asked, Spelt, PlainKind, HitNamesSource;
    hide HitOutcome, PickAt, Resolve, Skipped;
    HitIsForwardRef(reg, rule, source, o, hit, r);
    OwnKindIff(reg, source, o.RowNamespace(), how, rule.from);
    RefIsReachable(reg, rule, source, o, hit, r);
    ForwardIsBackwardIff(reg, rule, source, o, hit, r);
    if ResolveViewKey(reg, rule.from) == Some(source) {
      KeyParts(source, o.RowNamespace(), how, rule.from);
      ScopeHolds(reg, rule, source, o, r, tableNs);
    }
  }

  lemma HitIsForwardRef(reg: Registry, rule: RefRule, source: KindRef, o: Object, hit: Hit, r: Ref)
    requires !Skipped(rule, Resolve(reg, rule), source) && hit in RuleHits(o.value, rule)
    requires HitOutcome(rule, Resolve(reg, rule), source, o, hit) == Reads(r)
    ensures r in ForwardRefs(reg, rule, source, o)
  {
    RefComesFromHit(rule, Resolve(reg, rule), source, o, RuleHits(o.value, rule), r);
  }

  lemma RefIsReachable(reg: Registry, rule: RefRule, source: KindRef, o: Object, hit: Hit, r: Ref)
    requires !Skipped(rule, Resolve(reg, rule), source) && hit in RuleHits(o.value, rule)
    requires HitOutcome(rule, Resolve(reg, rule), source, o, hit) == Reads(r)
    ensures Holds(Resolve(reg, rule).all, r.target) && !Unreachable(rule, source.namespaced, r.target.namespaced)
    ensures r.target.namespaced ==> r.ns != ""
    ensures r.target.namespaced && rule.namespacePath.None? ==> r.ns == o.RowNamespace()
  {
    var t := Resolve(reg, rule);
    assert t.all[PickAt(t, rule, hit)] in t.all;
    HitNamespaceIsNonEmpty(o.value, rule, hit);
  }

  /** When the scope a rule is listed in, found through the source's own key, holds `o`. */
  lemma ScopeHolds(reg: Registry, rule: RefRule, source: KindRef, o: Object, r: Ref, tableNs: string)
    requires KeyNamespace(rule.from).Some? ==> KeyNamespace(rule.from).value == o.RowNamespace() != ""
    requires ResolveViewKey(reg, rule.from) == Some(source)
    requires r.target.namespaced ==> r.ns != ""
    requires r.target.namespaced && rule.namespacePath.None? ==> r.ns == o.RowNamespace()
    ensures var selectionNs := if r.target.namespaced then r.ns else "";
            var b := BackwardFor(reg, rule, r.target, selectionNs, tableNs);
            b.Some? ==>
              && (Listed(b.value.scope, o) <==>
                    || rule.reverse.ByCluster? || !source.namespaced || KeyNamespace(rule.from).Some?
                    || Listed(if selectionNs == "" then tableNs else selectionNs, o))
              && (r.target.namespaced && rule.namespacePath.None? ==> Listed(b.value.scope, o))
  {
    hide Resolve, Holds, KeyNamespace, ResolveViewKey, Unreachable;
  }

  /** Which objects of the listed kind a backward read looks at: all of a cluster-scoped kind;
      else those of the namespace that the rule's key is for, if it is for one; else all of
      them or those of the selection's namespace, or the table's where the selection has none. */
  lemma ScopeHoldsIff(reg: Registry, rule: RefRule, source: KindRef, ns: string, tableNs: string, o: Object)
    requires var b := BackwardFor(reg, rule, source, ns, tableNs);
             b.Some? && (b.value.from.namespaced <==> o.RowNamespace() != "")
    ensures var b, pinned := BackwardFor(reg, rule, source, ns, tableNs).value, KeyNamespace(rule.from);
            Listed(b.scope, o)
            <==> || o.RowNamespace() == ""
                 || (pinned.Some? && pinned.value in {"", o.RowNamespace()})
                 || (pinned.None? && rule.reverse.ByCluster?)
                 || (pinned.None? && ns != "" && ns == o.RowNamespace())
                 || (pinned.None? && ns == "" && tableNs in {"", o.RowNamespace()})
  {
    hide Resolve, Holds, KeyNamespace, ResolveViewKey, Unreachable;
  }

  /** A reversible rule that can name the selection's kind and whose own kind is known is listed,
      unless that kind has no namespaces and the rule says none for a namespaced target. */
  lemma ListedIff(reg: Registry, rule: RefRule, source: KindRef, ns: string, tableNs: string, from: KindRef)
    ensures var b := BackwardFor(reg, rule, source, ns, tableNs);
            b.Some? && b.value.from == from
            <==> && rule.reverse in {ByNamespace, ByCluster}
                 && (exists t :: && t in Resolve(reg, rule).all
                                 && t.resource == source.resource && t.group == source.group)
                 && ResolveViewKey(reg, rule.from) == Some(from)
                 && (source.namespaced ==> from.namespaced || rule.namespacePath.Some?)
  {
    hide Resolve, KeyNamespace, ResolveViewKey;
  }

  // ----- where the two readings part ------------------------------------------------

  lemma {:induction false} EscapePlain(s: string)
    requires '~' !in s && '/' !in s
    ensures Escape(s) == s
  {
    if s != "" {
      EscapePlain(s[1..]);
      assert s[0] in s && [s[0]] + s[1..] == s;
    }
  }

  lemma OneSegment(token: string)
    requires '~' !in token && '/' !in token
    ensures Segments("/" + token) == Some([token])
  {
    EscapePlain(token);
    SegmentsOfEncoded([token]);
    assert EscapeAll([token]) == [token];
    assert EncodePointer([token]) == "/" + token;
  }

  const SECRET := KindRef("", "v1", "Secret", "secrets", true, "secrets")
  const WIDGET := KindRef("x", "x/v1", "Widget", "widgets", true, "widgets")
  const GAP_RULE := RefRule("x/widgets", "/ref", Some("/ns"), "secrets", None, [], None, None, ByCluster)
  const GAP_OBJECT := Object(Some("prod"), Obj(map["ref" := Str("token")]))

  function SecretsOnly(): Registry { name => if name == "secrets" then Some(SECRET) else None }

  lemma GapWalk()
    ensures Expansion(GAP_OBJECT.value, ["ref"], []) == [Found([], "token")]
    ensures NodeAtSpec(GAP_OBJECT.value, ["ns"], []) == None
  {
    assert Expansion(GAP_OBJECT.value, ["ref"], []) == Expansion(Str("token"), [], []);
  }

  lemma GapHits()
    ensures RuleHits(GAP_OBJECT.value, GAP_RULE) == [Hit("token", None, None, None)]
  {
    hide Segments, Expansion, NodeAtSpec, RuleHits;
    assert "/" + "ref" == "/ref";
    OneSegment("ref");
    assert "/" + "ns" == "/ns";
    OneSegment("ns");
    GapWalk();
    OneHit(GAP_OBJECT.value, GAP_RULE, "ref", Found([], "token"));
  }

  /** An element without the namespace its rule points at: read forwards in the
      row's namespace, not recognised backwards, although the comment above
      `names_source` promises the object's own namespace as the fallback. */
  lemma NamespaceFallbackGap()
    ensures var r := Ref(SECRET, "token", "prod");
            && r in ForwardRefs(SecretsOnly(), GAP_RULE, WIDGET, GAP_OBJECT)
            && !NamesSource(GAP_OBJECT, GAP_RULE, Resolve(SecretsOnly(), GAP_RULE).default,
                            SECRET, "token", SelectionNamespace(SECRET, "prod"))
  {
    GapHits();
    var t := Resolve(SecretsOnly(), GAP_RULE);
    var hit := Hit("token", None, None, None);
    assert hit in RuleHits(GAP_OBJECT.value, GAP_RULE);
    RefComesFromHit(GAP_RULE, t, WIDGET, GAP_OBJECT, [hit], Ref(SECRET, "token", "prod"));
  }

  lemma ThreeSegments(a: string, b: string, c: string)
    requires '~' !in a && '/' !in a && '~' !in b && '/' !in b && '~' !in c && '/' !in c
    ensures Segments("/" + (a + "/" + (b + "/" + c))) == Some([a, b, c])
  {
    EscapePlain(a);
    EscapePlain(b);
    EscapePlain(c);
    var tokens := [a, b, c];
    assert tokens[1..] == [b, c] && [b, c][1..] == [c] && [c][1..] == [];
    assert EscapeAll([c]) == [c] && EscapeAll([b, c]) == [b, c] && EscapeAll(tokens) == tokens;
    assert Join([b, c]) == b + "/" + c;
    assert Join(tokens) == a + "/" + (b + "/" + c);
    SegmentsOfEncoded(tokens);
  }

  const CLAIM_KIND :=
    KindRef("", "v1", "PersistentVolumeClaim", "persistentvolumeclaims", true, "persistentvolumeclaims")
  const VOLUME_KIND := KindRef("", "v1", "PersistentVolume", "persistentvolumes", false, "persistentvolumes")
  const CLAIM_RULE :=
    RefRule("v1/persistentvolumes", "/spec/claimRef/name", Some("/spec/claimRef/namespace"), "persistentvolumeclaims",
            None, [], None, None, Never)
  const CLAIM_REF := Obj(map["name" := Str("data"), "namespace" := Str("prod")])
  const VOLUME := Object(None, Obj(map["spec" := Obj(map["claimRef" := CLAIM_REF])]))

  function ClaimsOnly(): Registry { name => if name == "persistentvolumeclaims" then Some(CLAIM_KIND) else None }

  lemma ClaimNamePath()
    ensures Segments("/spec/claimRef/name") == Some(["spec", "claimRef", "name"])
  {
    hide Segments;
    ThreeSegments("spec", "claimRef", "name");
    assert "/" + ("spec" + "/" + ("claimRef" + "/" + "name")) == "/spec/claimRef/name";
  }

  lemma ClaimNamespacePath()
    ensures Segments("/spec/claimRef/namespace") == Some(["spec", "claimRef", "namespace"])
  {
    hide Segments;
    ThreeSegments("spec", "claimRef", "namespace");
    assert "/" + ("spec" + "/" + ("claimRef" + "/" + "namespace")) == "/spec/claimRef/namespace";
  }

  lemma ClaimWalks()
    ensures Expansion(VOLUME.value, ["spec", "claimRef", "name"], []) == [Found([], "data")]
    ensures NodeAtSpec(VOLUME.value, ["spec", "claimRef", "namespace"], []) == Some(Str("prod"))
  {
    var name, ns := ["spec", "claimRef", "name"], ["spec", "claimRef", "namespace"];
    assert name[1..] == ["claimRef", "name"] && name[1..][1..] == ["name"] && ["name"][1..] == [];
    assert ns[1..] == ["claimRef", "namespace"] && ns[1..][1..] == ["namespace"] && ["namespace"][1..] == [];
    var spec := Obj(map["claimRef" := CLAIM_REF]);
    assert Expansion(CLAIM_REF, ["name"], []) == Expansion(Str("data"), [], []) == [Found([], "data")];
    assert Expansion(spec, ["claimRef", "name"], []) == [Found([], "data")];
    assert Walk(CLAIM_REF, ["namespace"], []) == Walk(Str("prod"), [], []);
    assert Walk(spec, ["claimRef", "namespace"], []) == Walk(CLAIM_REF, ["namespace"], []);
  }

  lemma ClaimHits()
    ensures RuleHits(VOLUME.value, CLAIM_RULE) == [Hit("data", Some("prod"), None, None)]
  {
    hide Segments, Expansion, NodeAtSpec;
    ClaimNamePath();
    ClaimNamespacePath();
    ClaimWalks();
  }

  /** A persistent volume, which has no namespace, names its claim in the claim's own. */
  lemma ClaimIsRead()
    ensures ForwardRefs(ClaimsOnly(), CLAIM_RULE, VOLUME_KIND, VOLUME) == [Ref(CLAIM_KIND, "data", "prod")]
  {
    hide RuleHits;
    ClaimHits();
    var hit := Hit("data", Some("prod"), None, None);
    var t := Resolve(ClaimsOnly(), CLAIM_RULE);
    assert t == Targets([CLAIM_KIND], Some(CLAIM_KIND), false);
    assert HitOutcome(CLAIM_RULE, t, VOLUME_KIND, VOLUME, hit) == Reads(Ref(CLAIM_KIND, "data", "prod"));
    assert [hit][..0] == [] && RefsOfHits(CLAIM_RULE, t, VOLUME_KIND, VOLUME, []) == [];
  }

  const FIRST_CLUSTER := KindRef("a.io", "a.io/v1", "Cluster", "clusters", false, "clusters")
  const OTHER_CLUSTER := KindRef("b.io", "b.io/v1", "Cluster", "clusters", false, "clusters")
  const KIND_RULE :=
    RefRule("x/widgets", "/ref", None, "", Some("/kind"), ["clusters.a.io", "clusters.b.io"], None, None, ByCluster)
  const KIND_OBJECT := Object(Some("prod"), Obj(map["ref" := Str("main"), "kind" := Str("Cluster")]))

  function BothClusters(): Registry {
    name =>
      if name == "clusters.a.io" then Some(FIRST_CLUSTER)
      else if name == "clusters.b.io" then Some(OTHER_CLUSTER)
      else None
  }

  lemma KindHits()
    ensures RuleHits(KIND_OBJECT.value, KIND_RULE) == [Hit("main", None, Some("Cluster"), None)]
  {
    hide Segments, Expansion, NodeAtSpec, RuleHits;
    assert "/" + "ref" == "/ref";
    OneSegment("ref");
    assert "/" + "kind" == "/kind";
    OneSegment("kind");
    KindWalk();
    OneHit(KIND_OBJECT.value, KIND_RULE, "ref", Found([], "main"));
  }

  lemma OneHit(value: Json, rule: RefRule, segment: string, f: Found)
    requires Segments(rule.path) == Some([segment]) && Expansion(value, [segment], []) == [f]
    ensures RuleHits(value, rule) == [HitOf(value, f, rule.namespacePath, rule.kindPath, rule.groupPath)]
  {
    hide Segments, Expansion, HitOf;
  }

  lemma KindWalk()
    ensures Expansion(KIND_OBJECT.value, ["ref"], []) == [Found([], "main")]
    ensures NodeAtSpec(KIND_OBJECT.value, ["kind"], []) == Some(Str("Cluster"))
  {
    assert Expansion(KIND_OBJECT.value, ["ref"], []) == Expansion(Str("main"), [], []);
    assert Walk(KIND_OBJECT.value, ["kind"], []) == Walk(Str("Cluster"), [], []);
  }

  lemma KindTargets()
    ensures Resolve(BothClusters(), KIND_RULE) == Targets([FIRST_CLUSTER, OTHER_CLUSTER], None, false)
  {
    var names := KIND_RULE.kinds;
    assert names[..1] == ["clusters.a.io"] && names[..1][..0] == [];
    assert Candidates(BothClusters(), names[..1]) == [FIRST_CLUSTER];
  }

  const KIND_HIT := Hit("main", None, Some("Cluster"), None)

  lemma KindIsAmbiguous()
    ensures HitNamesKind(KIND_RULE, KIND_HIT, None, FIRST_CLUSTER)
    ensures HitNamesKind(KIND_RULE, KIND_HIT, None, OTHER_CLUSTER)
  {
  }

  /** Two served kinds of one name and an element that gives no group: the plan reads the
      first, and the second is still recognised backwards although nothing reads it. */
  lemma AmbiguousKindGap()
    ensures var t := Resolve(BothClusters(), KIND_RULE);
            && NamesSource(KIND_OBJECT, KIND_RULE, t.default, OTHER_CLUSTER, "main", None)
            && forall r :: r in ForwardRefs(BothClusters(), KIND_RULE, WIDGET, KIND_OBJECT) ==>
                 r.target != OTHER_CLUSTER
  {
    KindHits();
    KindTargets();
    KindIsAmbiguous();
    hide Resolve, RuleHits, HitNamesKind, BothClusters, PickAt, RefsOfHits;
    var t := Resolve(BothClusters(), KIND_RULE);
    assert KIND_HIT in RuleHits(KIND_OBJECT.value, KIND_RULE);
    assert HitNamesKind(KIND_RULE, KIND_HIT, t.default, t.all[0]);
    forall r | r in ForwardRefs(BothClusters(), KIND_RULE, WIDGET, KIND_OBJECT) ensures r.target != OTHER_CLUSTER {
      RefComesFromHit(KIND_RULE, t, WIDGET, KIND_OBJECT, [KIND_HIT], r);
      PickIsFirst(BothClusters(), KIND_RULE, KIND_HIT, 1);
    }
  }

  const POD := KindRef("", "v1", "Pod", "pods", true, "pods")
  const POD_METRICS := KindRef("metrics.k8s.io", "metrics.k8s.io/v1beta1", "PodMetrics", "pods", true, "pods")
  const POD_RULE := RefRule("pods", "/ref", None, "secrets", None, [], None, None, ByCluster)

  function SharedPods(): Registry {
    name =>
      if name == "pods" then Some(POD)
      else if name == "pods.metrics.k8s.io" then Some(POD_METRICS)
      else if name == "secrets" then Some(SECRET)
      else None
  }

  lemma PodsIsSpelt(ar: KindRef)
    requires ar.resource == "pods"
    ensures "pods" == Spelt(ar, ByPlural) && Spells(ar, "prod", ByPlural, "pods") && Asked(ar, ByPlural) == "pods"
  {
    assert Lower("pods") == "pods" && Tail(ar, ByPlural) == "pods";
    FirstIs("pods", ':', 4);
    assert WithoutLayout("pods") == "pods";
    hide Lower, Tail, First, WithoutLayout;
  }

  lemma PodsKey(ar: KindRef)
    requires ar.resource == "pods" && PlainKind(ar)
    ensures "pods" in LookupKeys(ar, "prod") && KeyNamespace("pods") == None
    ensures ResolveViewKey(SharedPods(), "pods") == Some(ar) <==> SharedPods()("pods") == Some(ar)
  {
    hide Spelt, Spells, Asked, LookupKeys, KeyNamespace, ResolveViewKey, PlainKind;
    PodsIsSpelt(ar);
    LookupKeysAreSpelt(ar, "prod", "pods");
    OwnKindIff(SharedPods(), ar, "prod", ByPlural, "pods");
    KeyParts(ar, "prod", ByPlural, "pods");
  }

  lemma PodHits()
    ensures RuleHits(GAP_OBJECT.value, POD_RULE) == [Hit("token", None, None, None)]
  {
    hide Segments, Expansion, NodeAtSpec, RuleHits;
    assert "/" + "ref" == "/ref";
    OneSegment("ref");
    GapWalk();
    OneHit(GAP_OBJECT.value, POD_RULE, "ref", Found([], "token"));
  }

  lemma PodRefs(source: KindRef)
    requires source.namespaced
    ensures Ref(SECRET, "token", "prod") in ForwardRefs(SharedPods(), POD_RULE, source, GAP_OBJECT)
  {
    hide RuleHits;
    PodHits();
    var hit := Hit("token", None, None, None);
    assert hit in [hit];
    RefComesFromHit(POD_RULE, Resolve(SharedPods(), POD_RULE), source, GAP_OBJECT, [hit], Ref(SECRET, "token", "prod"));
  }

  lemma PodTargets()
    ensures Resolve(SharedPods(), POD_RULE) == Targets([SECRET], Some(SECRET), false)
    ensures Holds([SECRET], SECRET)
  {
    assert SECRET in [SECRET];
  }

  lemma PodKinds()
    ensures PlainKind(POD) && PlainKind(POD_METRICS)
    ensures SharedPods()("pods") == Some(POD)
  {
  }

  lemma PodsListed()
    ensures BackwardFor(SharedPods(), POD_RULE, SECRET, "prod", "") == Some(Backward(POD, "", Some(SECRET)))
  {
    hide LookupKeys, ResolveViewKey, KeyNamespace, SharedPods, PlainKind, Resolve, Holds;
    PodKinds();
    PodsKey(POD);
    PodTargets();
  }

  /** A rule keyed by a bare plural that two groups share: it applies to both kinds and reads
      both forwards, and backwards it lists only the one the registry knows by that plural. */
  lemma SharedPluralGap()
    ensures var reg := SharedPods();
      && POD_RULE.from in LookupKeys(POD, "prod") && POD_RULE.from in LookupKeys(POD_METRICS, "prod")
      && Ref(SECRET, "token", "prod") in ForwardRefs(reg, POD_RULE, POD, GAP_OBJECT)
      && Ref(SECRET, "token", "prod") in ForwardRefs(reg, POD_RULE, POD_METRICS, GAP_OBJECT)
      && BackwardFor(reg, POD_RULE, SECRET, "prod", "") == Some(Backward(POD, "", Some(SECRET)))
  {
    hide LookupKeys, ForwardRefs, BackwardFor, SharedPods, PlainKind, KeyNamespace, ResolveViewKey;
    PodKinds();
    PodsKey(POD);
    PodsKey(POD_METRICS);
    PodRefs(POD);
    PodRefs(POD_METRICS);
    PodsListed();
  }

  // ----- what the gather shows ------------------------------------------------------

  datatype Direction = Owner | Child | Names | NamedBy

  datatype Item = Item(direction: Direction, relation: string, kind: string, plural: string, namespace: Option<string>,
                       name: string, value: Json)
  {
    function Key(): (Direction, string, string, Option<string>, string) {
      (direction, relation, plural, namespace, name)
    }
  }

  /** The same object, reached the same way. */
  predicate Repeats(a: Item, b: Item) {
    && a.direction == b.direction && a.relation == b.relation
    && a.plural == b.plural && a.namespace == b.namespace && a.name == b.name
  }

  /** `at` holds the positions of the items that no earlier one matches. */
  ghost predicate FirstAt(items: seq<Item>, at: seq<nat>) {
    && (forall j, k :: 0 <= j < k < |at| ==> at[j] < at[k])
    && forall i: nat :: i in at <==> i < |items| && forall j :: 0 <= j < i ==> !Repeats(items[j], items[i])
  }

  ghost predicate Picked(items: seq<Item>, at: seq<nat>, kept: seq<Item>) {
    |kept| == |at| && forall j :: 0 <= j < |at| ==> at[j] < |items| && kept[j] == items[at[j]]
  }

  /** `dedup`: exactly the items that no earlier one matches, in order. */
  method Dedup(items: seq<Item>) returns (kept: seq<Item>)
    ensures exists at :: FirstAt(items, at) && Picked(items, at, kept)
    ensures forall j, k :: 0 <= j < k < |kept| ==> !Repeats(kept[j], kept[k])
  {
    hide Repeats;
    SameKeyRepeats();
    var seen := {};
    kept := [];
    ghost var at: seq<nat> := [];
    for i := 0 to |items|
      invariant seen == set j | 0 <= j < i :: items[j].Key()
      invariant |kept| == |at| && forall j :: 0 <= j < |at| ==> at[j] < i && kept[j] == items[at[j]]
      invariant forall j, k :: 0 <= j < k < |at| ==> at[j] < at[k]
      invariant forall n: nat :: n in at <==> n < i && forall j :: 0 <= j < n ==> items[j].Key() != items[n].Key()
    {
      if items[i].Key() !in seen {
        seen := seen + {items[i].Key()};
        kept, at := kept + [items[i]], at + [i];
      }
    }
    assert FirstAt(items, at) && Picked(items, at, kept);
    forall j, k | 0 <= j < k < |kept| ensures !Repeats(kept[j], kept[k]) {
      NoRepeats(items, at, kept, j, k);
    }
  }

  lemma SameKeyRepeats()
    ensures forall a: Item, b: Item :: a.Key() == b.Key() <==> Repeats(a, b)
  {
  }

  lemma NoRepeats(items: seq<Item>, at: seq<nat>, kept: seq<Item>, j: nat, k: nat)
    requires FirstAt(items, at) && Picked(items, at, kept) && j < k < |kept|
    ensures !Repeats(kept[j], kept[k])
  {
    assert at[k] in at;
  }
}
