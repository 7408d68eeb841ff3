/** The whole gather plan (`plan`, src/adjacent.rs): both loops over the reference rules,
    and what the plans of two objects say of each other. */
module AdjacencyPlan {
  import opened Wrappers
  import opened Pointer
  import opened ViewKeys
  import opened Adjacency

  /** The reference rules of configured views, by view key. */
  type Views = map<string, seq<RefRule>>

  datatype Forwarded = Forwarded(rule: RefRule, forward: Forward)

  datatype Backed = Backed(rule: RefRule, backward: Backward)

  datatype Plan = Plan(forward: seq<Forwarded>, backward: seq<Backed>, warns: seq<(RefRule, Warn)>)

  /** A view's rules start from the kind its key names. */
  ghost predicate Keyed(views: Views) {
    forall key, rule :: key in views && rule in views[key] ==> rule.from == key
  }

  ghost predicate Known(builtin: seq<RefRule>, views: Views, rule: RefRule) {
    rule in builtin || exists key :: key in views && rule in views[key]
  }

  /** Built-in rows whose key applies, then the rules of every view that applies. */
  ghost predicate Applies(builtin: seq<RefRule>, views: Views, keys: seq<string>, rule: RefRule) {
    (rule in builtin && rule.from in keys) || exists key :: key in keys && key in views && rule in views[key]
  }

  function Rows(builtin: seq<RefRule>, keys: seq<string>): seq<RefRule> {
    if builtin == [] then []
    else
      var last := builtin[|builtin| - 1];
      Rows(builtin[..|builtin| - 1], keys) + if last.from in keys then [last] else []
  }

  function ViewRules(views: Views, keys: seq<string>): seq<RefRule> {
    if keys == [] then []
    else
      var last := keys[|keys| - 1];
      ViewRules(views, keys[..|keys| - 1]) + if last in views then views[last] else []
  }

  /** The rules read forwards, in order: built-in rows first, then view by view. */
  function RulesOf(builtin: seq<RefRule>, views: Views, keys: seq<string>): seq<RefRule> {
    Rows(builtin, keys) + ViewRules(views, keys)
  }

  lemma {:induction false} RowsApply(builtin: seq<RefRule>, keys: seq<string>, rule: RefRule)
    ensures rule in Rows(builtin, keys) <==> rule in builtin && rule.from in keys
  {
    if builtin != [] {
      var front, last := builtin[..|builtin| - 1], builtin[|builtin| - 1];
      RowsApply(front, keys, rule);
      assert builtin == front + [last];
    }
  }

  lemma {:induction false} ViewRulesApply(views: Views, keys: seq<string>, rule: RefRule)
    ensures rule in ViewRules(views, keys) <==> exists key :: key in keys && key in views && rule in views[key]
  {
    if keys != [] {
      var front, last := keys[..|keys| - 1], keys[|keys| - 1];
      ViewRulesApply(views, front, rule);
      assert keys == front + [last];
    }
  }

  lemma RulesApply(builtin: seq<RefRule>, views: Views, keys: seq<string>, rule: RefRule)
    ensures rule in RulesOf(builtin, views, keys) <==> Applies(builtin, views, keys, rule)
  {
    RowsApply(builtin, keys, rule);
    ViewRulesApply(views, keys, rule);
  }

  method RulesFor(builtin: seq<RefRule>, views: Views, source: KindRef, ns: string) returns (rules: seq<RefRule>)
    ensures rules == RulesOf(builtin, views, LookupKeys(source, ns))
    ensures forall rule :: rule in rules <==> Applies(builtin, views, LookupKeys(source, ns), rule)
  {
    hide LookupKeys, Applies;
    var keys := LookupKeys(source, ns);
    var rows, more := [], [];
    for i := 0 to |builtin|
      invariant rows == Rows(builtin[..i], keys)
    {
      assert builtin[..i + 1][..i] == builtin[..i];
      if builtin[i].from in keys { rows := rows + [builtin[i]]; }
    }
    assert builtin[..|builtin|] == builtin;
    for i := 0 to |keys|
      invariant more == ViewRules(views, keys[..i])
    {
      assert keys[..i + 1][..i] == keys[..i];
      if keys[i] in views { more := more + views[keys[i]]; }
    }
    assert keys[..|keys|] == keys;
    rules := rows + more;
    forall rule ensures rule in rules <==> Applies(builtin, views, keys, rule) {
      RulesApply(builtin, views, keys, rule);
    }
  }

  /** `order` runs through the keys once each, as iterating a hash map does. */
  ghost predicate EachOnce(order: seq<string>, keys: set<string>) {
    && (forall key :: key in order <==> key in keys)
    && forall i, j :: 0 <= i < j < |order| ==> order[i] != order[j]
  }

  method AllRules(builtin: seq<RefRule>, views: Views) returns (rules: seq<RefRule>)
    ensures exists order :: EachOnce(order, views.Keys) && rules == builtin + ViewRules(views, order)
  {
    rules := builtin;
    var rest := views.Keys;
    ghost var order: seq<string> := [];
    while rest != {}
      invariant rest <= views.Keys && EachOnce(order, views.Keys - rest)
      invariant rules == builtin + ViewRules(views, order)
    {
      var key :| key in rest;
      assert (order + [key])[..|order|] == order;
      rules, order := rules + views[key], order + [key];
      rest := rest - {key};
    }
    assert views.Keys - rest == views.Keys;
  }

  lemma KnownRules(builtin: seq<RefRule>, views: Views, order: seq<string>, rule: RefRule)
    requires EachOnce(order, views.Keys)
    ensures rule in builtin + ViewRules(views, order) <==> Known(builtin, views, rule)
  {
    ViewRulesApply(views, order, rule);
  }

  // ----- forwards -------------------------------------------------------------------------------

  /** What the forward loop leaves for one rule: every reference, under its target, and a
      warning for what could not be followed. */
  ghost predicate RuleRead(rule: RefRule, reg: Registry, source: KindRef, o: Object,
                           forward: seq<Forwarded>, warns: seq<(RefRule, Warn)>) {
    var t, refs := Resolve(reg, rule), ForwardRefs(reg, rule, source, o);
    && (forall r :: r in refs ==>
          exists f :: f in forward && f.rule == rule && f.forward == Forward(r.target, RefsTo(refs, r.target)))
    && (t.stray ==> (rule, StrayDefault) in warns)
    && (t.all != [] && Skipped(rule, t, source) ==> (rule, NeedsNamespacePath) in warns)
    && (!Skipped(rule, t, source) ==> forall hit :: hit in RuleHits(o.value, rule) ==>
          match HitOutcome(rule, t, source, o, hit)
          case Reads(r) => r in refs
          case Warned(w) => (rule, w) in warns
          case Silent => Pick(t, rule, hit).None?)
  }

  /** Why the forward loop warns about a rule. */
  ghost predicate Cause(rule: RefRule, reg: Registry, source: KindRef, o: Object, w: Warn) {
    var t := Resolve(reg, rule);
    || (t.stray && w == StrayDefault)
    || (t.all != [] && Skipped(rule, t, source) && w == NeedsNamespacePath)
    || (!Skipped(rule, t, source) && Caused(rule, t, source, o, RuleHits(o.value, rule), w))
  }

  /** Rule by rule in order, each rule's references grouped by target. */
  ghost predicate Laid(forward: seq<Forwarded>, rules: seq<RefRule>, reg: Registry, source: KindRef, o: Object)
    decreases |rules|
  {
    if rules == [] then forward == []
    else exists n: nat, fs :: && LaidLast(forward, rules, reg, source, o, n, fs)
                              && Laid(forward[..n], rules[..|rules| - 1], reg, source, o)
  }

  ghost predicate LaidLast(forward: seq<Forwarded>, rules: seq<RefRule>, reg: Registry, source: KindRef, o: Object,
                           n: nat, fs: seq<Forward>) {
    && rules != [] && n <= |forward|
    && var last := rules[|rules| - 1];
    forward[n..] == Tag(last, fs) && Grouped(fs, ForwardRefs(reg, last, source, o))
  }

  /** Nothing else is read. */
  ghost predicate Read(f: Forwarded, rules: seq<RefRule>, reg: Registry, source: KindRef, o: Object) {
    && f.rule in rules && f.forward.refs != []
    && f.forward.refs == RefsTo(ForwardRefs(reg, f.rule, source, o), f.forward.target)
  }

  function Tag(rule: RefRule, forwards: seq<Forward>): (r: seq<Forwarded>)
    ensures |r| == |forwards| && forall i :: 0 <= i < |r| ==> r[i] == Forwarded(rule, forwards[i])
  {
    seq(|forwards|, i requires 0 <= i < |forwards| => Forwarded(rule, forwards[i]))
  }

  function TagWarns(rule: RefRule, warns: seq<Warn>): (r: seq<(RefRule, Warn)>)
    ensures |r| == |warns| && forall i :: 0 <= i < |r| ==> r[i] == (rule, warns[i])
  {
    seq(|warns|, i requires 0 <= i < |warns| => (rule, warns[i]))
  }

  lemma RuleReadGrows(rule: RefRule, reg: Registry, source: KindRef, o: Object,
                      f: seq<Forwarded>, w: seq<(RefRule, Warn)>, f': seq<Forwarded>, w': seq<(RefRule, Warn)>)
    requires RuleRead(rule, reg, source, o, f, w) && f <= f' && w <= w'
    ensures RuleRead(rule, reg, source, o, f', w')
  {
    assert forall x :: x in f ==> x in f';
    assert forall x :: x in w ==> x in w';
  }

  /** One rule's turn of the forward loop. */
  method ReadRule(reg: Registry, rule: RefRule, source: KindRef, o: Object)
    returns (forward: seq<Forwarded>, warns: seq<(RefRule, Warn)>)
    ensures RuleRead(rule, reg, source, o, forward, warns)
    ensures exists fs :: forward == Tag(rule, fs) && Grouped(fs, ForwardRefs(reg, rule, source, o))
    ensures forall f :: f in forward ==> Read(f, [rule], reg, source, o)
    ensures forall w :: w in warns ==> w.0 == rule && Cause(rule, reg, source, o, w.1)
  {
    hide Resolve, RuleHits, HitOutcome, ForwardRefs, RefsTo, Skipped, RuleRead, Caused, InOrder;
    var fs, ws := PlanRule(reg, rule, source, o);
    forward := Tag(rule, fs);
    ghost var refs := ForwardRefs(reg, rule, source, o);
    forall r | r in refs
      ensures exists f :: f in forward && f.rule == rule && f.forward == Forward(r.target, RefsTo(refs, r.target))
    {
      var k :| 0 <= k < |fs| && fs[k].target == r.target;
      assert forward[k] in forward;
    }
    var tagged := TagWarns(rule, ws);
    assert forall w :: w in ws ==> (rule, w) in tagged by {
      forall w | w in ws ensures (rule, w) in tagged {
        var k :| 0 <= k < |ws| && ws[k] == w;
        assert tagged[k] in tagged;
      }
    }
    warns := (if Resolve(reg, rule).stray then [(rule, StrayDefault)] else []) + tagged;
    assert forall w :: w in ws ==> (rule, w) in warns;
    RuleIsRead(rule, reg, source, o, forward, ws, warns);
  }

  lemma RuleIsRead(rule: RefRule, reg: Registry, source: KindRef, o: Object,
                   forward: seq<Forwarded>, ws: seq<Warn>, warns: seq<(RefRule, Warn)>)
    requires var t, refs := Resolve(reg, rule), ForwardRefs(reg, rule, source, o);
      && (forall r :: r in refs ==>
            exists f :: f in forward && f.rule == rule && f.forward == Forward(r.target, RefsTo(refs, r.target)))
      && (t.stray ==> (rule, StrayDefault) in warns)
      && (forall w :: w in ws ==> (rule, w) in warns)
      && (if t.all == [] then ws == []
          else if Skipped(rule, t, source) then ws == [NeedsNamespacePath]
          else forall h :: h in RuleHits(o.value, rule) ==> Accounted(rule, t, source, o, h, refs, ws))
    ensures RuleRead(rule, reg, source, o, forward, warns)
  {
    hide Resolve, RuleHits, HitOutcome, ForwardRefs, RefsTo;
    var t, refs := Resolve(reg, rule), ForwardRefs(reg, rule, source, o);
    assert NeedsNamespacePath in [NeedsNamespacePath];
    if !Skipped(rule, t, source) {
      assert t.all != [];
      forall hit | hit in RuleHits(o.value, rule)
        ensures match HitOutcome(rule, t, source, o, hit)
                case Reads(r) => r in refs
                case Warned(w) => (rule, w) in warns
                case Silent => Pick(t, rule, hit).None?
      {
        assert Accounted(rule, t, source, o, hit, refs, ws);
      }
    }
  }

  method PlanForward(rules: seq<RefRule>, reg: Registry, source: KindRef, o: Object)
    returns (forward: seq<Forwarded>, warns: seq<(RefRule, Warn)>)
    ensures forall rule :: rule in rules ==> RuleRead(rule, reg, source, o, forward, warns)
    ensures Laid(forward, rules, reg, source, o)
    ensures forall f :: f in forward ==> Read(f, rules, reg, source, o)
    ensures forall w :: w in warns ==> w.0 in rules && Cause(w.0, reg, source, o, w.1)
  {
    hide RuleRead, Cause, Laid, Grouped, ForwardRefs;
    forward, warns := [], [];
    LaidNone(reg, source, o);
    for i := 0 to |rules|
      invariant forall rule :: rule in rules[..i] ==> RuleRead(rule, reg, source, o, forward, warns)
      invariant Laid(forward, rules[..i], reg, source, o)
      invariant forall f :: f in forward ==> Read(f, rules[..i], reg, source, o)
      invariant forall w :: w in warns ==> w.0 in rules[..i] && Cause(w.0, reg, source, o, w.1)
    {
      var fs, ws := ReadRule(reg, rules[i], source, o);
      LaidOne(forward, rules[..i], rules[i], fs, reg, source, o);
      forall rule | rule in rules[..i] ensures RuleRead(rule, reg, source, o, forward + fs, warns + ws) {
        RuleReadGrows(rule, reg, source, o, forward, warns, forward + fs, warns + ws);
      }
      MoreRules(reg, rules[i], source, o, forward, warns, fs, ws);
      assert rules[..i + 1] == rules[..i] + [rules[i]];
      forward, warns := forward + fs, warns + ws;
    }
    assert rules[..|rules|] == rules;
  }

  lemma LaidNone(reg: Registry, source: KindRef, o: Object)
    ensures Laid([], [], reg, source, o)
  {
  }

  lemma LaidOne(forward: seq<Forwarded>, rules: seq<RefRule>, rule: RefRule, more: seq<Forwarded>,
                reg: Registry, source: KindRef, o: Object)
    requires Laid(forward, rules, reg, source, o)
    requires exists fs :: more == Tag(rule, fs) && Grouped(fs, ForwardRefs(reg, rule, source, o))
    ensures Laid(forward + more, rules + [rule], reg, source, o)
  {
    hide Grouped, ForwardRefs;
    var fs :| more == Tag(rule, fs) && Grouped(fs, ForwardRefs(reg, rule, source, o));
    assert (forward + more)[..|forward|] == forward && (forward + more)[|forward|..] == more;
    assert (rules + [rule])[..|rules|] == rules;
    assert LaidLast(forward + more, rules + [rule], reg, source, o, |forward|, fs);
  }

  lemma MoreRules(reg: Registry, rule: RefRule, source: KindRef, o: Object,
                  f: seq<Forwarded>, w: seq<(RefRule, Warn)>, fs: seq<Forwarded>, ws: seq<(RefRule, Warn)>)
    requires RuleRead(rule, reg, source, o, fs, ws)
    ensures RuleRead(rule, reg, source, o, f + fs, w + ws)
  {
    assert forall x :: x in fs ==> x in f + fs;
    assert forall x :: x in ws ==> x in w + ws;
  }

  /** A rule that could be read backwards but for a namespace nothing tells. */
  predicate Barred(reg: Registry, rule: RefRule, source: KindRef) {
    var from := ResolveViewKey(reg, rule.from);
    && !rule.reverse.Never? && Holds(Resolve(reg, rule).all, source)
    && from.Some? && Unreachable(rule, from.value.namespaced, source.namespaced)
  }

  /** The rules that can name the selection, in order, with the scope each is listed in. */
  function BackwardOf(rules: seq<RefRule>, reg: Registry, source: KindRef, ns: string,
                      tableNs: string): seq<Backed> {
    if rules == [] then []
    else
      var last := rules[|rules| - 1];
      var b := BackwardFor(reg, last, source, ns, tableNs);
      BackwardOf(rules[..|rules| - 1], reg, source, ns, tableNs)
      + if b.Some? then [Backed(last, b.value)] else []
  }

  lemma {:induction false} BackwardOfRules(rules: seq<RefRule>, reg: Registry, source: KindRef,
                                           ns: string, tableNs: string, b: Backed)
    ensures b in BackwardOf(rules, reg, source, ns, tableNs)
       <==> b.rule in rules && BackwardFor(reg, b.rule, source, ns, tableNs) == Some(b.backward)
  {
    hide BackwardFor;
    if rules != [] {
      var front, last := rules[..|rules| - 1], rules[|rules| - 1];
      BackwardOfRules(front, reg, source, ns, tableNs, b);
      assert rules == front + [last];
    }
  }

  method PlanBackward(rules: seq<RefRule>, reg: Registry, source: KindRef, ns: string,
                      tableNs: string)
    returns (backward: seq<Backed>, warns: seq<(RefRule, Warn)>)
    ensures backward == BackwardOf(rules, reg, source, ns, tableNs)
    ensures forall w :: w in warns <==>
              w.0 in rules && w.1 == NeedsNamespacePath && Barred(reg, w.0, source)
  {
    BarredIsNotPlanned(reg, source, ns, tableNs);
    hide BackwardFor, Barred;
    backward, warns := [], [];
    for i := 0 to |rules|
      invariant backward == BackwardOf(rules[..i], reg, source, ns, tableNs)
      invariant forall w :: w in warns <==>
                  w.0 in rules[..i] && w.1 == NeedsNamespacePath && Barred(reg, w.0, source)
    {
      assert rules[..i + 1] == rules[..i] + [rules[i]] && rules[..i + 1][..i] == rules[..i];
      var b := BackwardFor(reg, rules[i], source, ns, tableNs);
      if b.Some? {
        backward := backward + [Backed(rules[i], b.value)];
      } else if Barred(reg, rules[i], source) {
        warns := warns + [(rules[i], NeedsNamespacePath)];
      }
    }
    assert rules[..|rules|] == rules;
  }

  lemma BarredIsNotPlanned(reg: Registry, source: KindRef, ns: string, tableNs: string)
    ensures forall rule :: Barred(reg, rule, source) ==>
              BackwardFor(reg, rule, source, ns, tableNs).None?
  {
  }

  /** A reversible rule that can name the selection's kind and whose own kind is known is either
      listed or warned about, never both; and it is warned about only if no object of its kind
      could be read as naming a selection of that kind. */
  lemma ListedOrWarned(reg: Registry, rule: RefRule, source: KindRef, ns: string, tableNs: string)
    requires !rule.reverse.Never? && Holds(Resolve(reg, rule).all, source) && ResolveViewKey(reg, rule.from).Some?
    ensures BackwardFor(reg, rule, source, ns, tableNs).Some? <==> !Barred(reg, rule, source)
    ensures Barred(reg, rule, source) ==>
              forall o, r :: r in ForwardRefs(reg, rule, ResolveViewKey(reg, rule.from).value, o) ==>
                r.target.namespaced != source.namespaced
  {
    hide ForwardRefs, ResolveViewKey, Resolve, Holds;
    if Barred(reg, rule, source) {
      var from := ResolveViewKey(reg, rule.from).value;
      forall o, r | r in ForwardRefs(reg, rule, from, o) ensures r.target.namespaced != source.namespaced {
        ReferenceIsWrittenIff(reg, rule, from, o, r);
      }
    }
  }

  /** The plan of `o` accounts for every rule that applies to it, rule by rule in order,
      reads nothing else, reads backwards exactly the rules that can name it, and warns
      exactly where a rule could not be followed. */
  ghost predicate PlanOf(p: Plan, builtin: seq<RefRule>, views: Views, reg: Registry,
                         source: KindRef, o: Object, tableNs: string) {
    var rules := RulesOf(builtin, views, LookupKeys(source, o.RowNamespace()));
    && (forall rule :: rule in rules ==> RuleRead(rule, reg, source, o, p.forward, p.warns))
    && Laid(p.forward, rules, reg, source, o)
    && (forall f :: f in p.forward ==> Read(f, rules, reg, source, o))
    && (exists order :: && EachOnce(order, views.Keys)
                        && p.backward == BackwardOf(builtin + ViewRules(views, order), reg, source,
                                                    o.RowNamespace(), tableNs))
    && (forall rule :: Known(builtin, views, rule) && Barred(reg, rule, source) ==>
          (rule, NeedsNamespacePath) in p.warns)
    && (forall w :: w in p.warns ==>
          || (w.0 in rules && Cause(w.0, reg, source, o, w.1))
          || (Known(builtin, views, w.0) && Barred(reg, w.0, source) && w.1 == NeedsNamespacePath))
  }

  method MakePlan(builtin: seq<RefRule>, views: Views, reg: Registry,
                  source: KindRef, o: Object, tableNs: string) returns (p: Plan)
    ensures PlanOf(p, builtin, views, reg, source, o, tableNs)
  {
    hide RuleRead, BackwardOf, Known, LookupKeys, Barred, RulesOf, ViewRules, Laid, Cause, Applies, EachOnce;
    var rules := RulesFor(builtin, views, source, o.RowNamespace());
    var forward, warns := PlanForward(rules, reg, source, o);
    var all := AllRules(builtin, views);
    ghost var order :| EachOnce(order, views.Keys) && all == builtin + ViewRules(views, order);
    var backward, more := PlanBackward(all, reg, source, o.RowNamespace(), tableNs);
    p := Plan(forward, backward, warns + more);
    forall rule | rule in rules ensures RuleRead(rule, reg, source, o, p.forward, p.warns) {
      RuleReadGrows(rule, reg, source, o, forward, warns, p.forward, p.warns);
    }
    forall rule ensures rule in all <==> Known(builtin, views, rule) {
      KnownRules(builtin, views, order, rule);
    }
  }

  /** What a plan reads backwards, rule by rule. */
  lemma PlannedBackward(p: Plan, builtin: seq<RefRule>, views: Views, reg: Registry,
                        source: KindRef, o: Object, tableNs: string, b: Backed)
    requires PlanOf(p, builtin, views, reg, source, o, tableNs)
    ensures b in p.backward
       <==> && Known(builtin, views, b.rule)
            && BackwardFor(reg, b.rule, source, o.RowNamespace(), tableNs) == Some(b.backward)
  {
    hide RuleRead, BackwardFor, BackwardOf, Known, LookupKeys, Barred, RulesOf, Laid, Cause, EachOnce;
    var order :| EachOnce(order, views.Keys) && p.backward ==
      BackwardOf(builtin + ViewRules(views, order), reg, source, o.RowNamespace(), tableNs);
    BackwardOfRules(builtin + ViewRules(views, order), reg, source, o.RowNamespace(), tableNs, b);
    KnownRules(builtin, views, order, b.rule);
  }

  // ----- two plans meet ---------------------------------------------------------------------

  lemma {:induction false} RefsToIsRef(refs: seq<Ref>, target: KindRef, name: string, ns: string)
    ensures (name, ns) in RefsTo(refs, target) <==> Ref(target, name, ns) in refs
  {
    if refs != [] {
      var front, last := refs[..|refs| - 1], refs[|refs| - 1];
      RefsToIsRef(front, target, name, ns);
      assert refs == front + [last];
      RefsToOne(front, last, target);
    }
  }

  lemma AppliesIsKnown(builtin: seq<RefRule>, views: Views, keys: seq<string>, rule: RefRule)
    requires Keyed(views) && Applies(builtin, views, keys, rule)
    ensures Known(builtin, views, rule) && rule.from in keys
  {
  }

  /** One reference seen from both ends: if a rule that is also read backwards makes `o`
      read an object, reading it backwards from that object lists `o`'s kind exactly when the
      registry knows the kind under the name the rule's key asks for. The scope listed holds
      `o` exactly when the rule or its source looks everywhere, the rule is pinned, or the
      selection's namespace, else the table's, covers `o`; and `o` is recognised there when
      the target is cluster-scoped, the rule has no namespace path, or an element carries the
      namespace. */
  lemma RuleMeets(reg: Registry, rule: RefRule, how: Spelling, source: KindRef, o: Object, r: Ref,
                  selectionNs: string, tableNs: string) returns (b: Option<Backward>)
    requires r in ForwardRefs(reg, rule, source, o) && !rule.reverse.Never?
    requires PlainKind(source) && '/' !in o.RowNamespace() && Spells(source, o.RowNamespace(), how, rule.from)
    requires selectionNs == if r.target.namespaced then r.ns else ""
    ensures b == BackwardFor(reg, rule, r.target, selectionNs, tableNs)
    ensures b.Some? && b.value.from == source <==> reg(Asked(source, how)) == Some(source)
    ensures b.Some? && b.value.from == source ==> Meets(reg, rule, source, o, r, selectionNs, tableNs, b.value)
  {
    hide Resolve, RuleHits, HitOutcome, NamesSource, RefsOfHits, KeyNamespace, Spells, Asked, BackwardFor;
    var t, hits := Resolve(reg, rule), RuleHits(o.value, rule);
    RefComesFromHit(rule, t, source, o, hits, r);
    var hit :| hit in hits && HitOutcome(rule, t, source, o, hit) == Reads(r);
    if other :| other in hits && other.namespace.Some? && HitOutcome(rule, t, source, o, other) == Reads(r) {
      hit := other;
    }
    ReverseLookupFindsReference(reg, rule, how, source, o, hit, r, tableNs);
    b := BackwardFor(reg, rule, r.target, selectionNs, tableNs);
  }

  /** When listing `o`'s kind by a rule finds `o`, and when `o` is then recognised. */
  ghost predicate Meets(reg: Registry, rule: RefRule, source: KindRef, o: Object, r: Ref, selectionNs: string,
                        tableNs: string, b: Backward) {
    && (Listed(b.scope, o) <==>
          || rule.reverse.ByCluster? || !source.namespaced || KeyNamespace(rule.from).Some?
          || Listed(if selectionNs == "" then tableNs else selectionNs, o))
    && (r.target.namespaced && rule.namespacePath.None? ==> Listed(b.scope, o))
    && (!r.target.namespaced || rule.namespacePath.None? || Carried(reg, rule, source, o, r) ==>
          NamesSource(o, rule, b.default, r.target, r.name, SelectionNamespace(r.target, r.ns)))
  }

  /** Some element that gives the reference says its namespace itself. */
  ghost predicate Carried(reg: Registry, rule: RefRule, source: KindRef, o: Object, r: Ref) {
    exists hit :: && hit in RuleHits(o.value, rule) && hit.namespace.Some?
                  && HitOutcome(rule, Resolve(reg, rule), source, o, hit) == Reads(r)
  }

  /** The plans of two objects agree about every reference the one reads and the other can
      find: the other's plan lists the first one's kind by that rule exactly when the registry
      knows the kind under the name the rule's key asks for. */
  lemma PlansMeet(builtin: seq<RefRule>, views: Views, reg: Registry,
                  source: KindRef, o: Object, p: Plan, f: Forwarded, name: string, ns: string,
                  target: Object, q: Plan, tableNs: string, tableNs': string) returns (how: Spelling)
    requires Keyed(views) && PlanOf(p, builtin, views, reg, source, o, tableNs)
    requires f in p.forward && (name, ns) in f.forward.refs && !f.rule.reverse.Never?
    requires PlainKind(source) && '/' !in o.RowNamespace()
    requires target.RowNamespace() == (if f.forward.target.namespaced then ns else "")
    requires PlanOf(q, builtin, views, reg, f.forward.target, target, tableNs')
    ensures Spells(source, o.RowNamespace(), how, f.rule.from)
    ensures (exists b :: b in q.backward && b.rule == f.rule && b.backward.from == source)
       <==> reg(Asked(source, how)) == Some(source)
    ensures forall b :: b in q.backward && b.rule == f.rule && b.backward.from == source ==>
              Meets(reg, f.rule, source, o, Ref(f.forward.target, name, ns), target.RowNamespace(), tableNs',
                    b.backward)
  {
    hide Resolve, RefsTo, LookupKeys, RuleRead, Meets, BackwardFor, ForwardRefs, Spells, Asked;
    hide Applies, Known, Barred, RulesOf, Laid, Cause, BackwardOf, EachOnce;
    var r, keys := Ref(f.forward.target, name, ns), LookupKeys(source, o.RowNamespace());
    RulesApply(builtin, views, keys, f.rule);
    AppliesIsKnown(builtin, views, keys, f.rule);
    LookupKeysAreSpelt(source, o.RowNamespace(), f.rule.from);
    how :| Spells(source, o.RowNamespace(), how, f.rule.from);
    RefsToIsRef(ForwardRefs(reg, f.rule, source, o), r.target, name, ns);
    var back := RuleMeets(reg, f.rule, how, source, o, r, target.RowNamespace(), tableNs');
    if back.Some? {
      PlannedBackward(q, builtin, views, reg, f.forward.target, target, tableNs', Backed(f.rule, back.value));
    }
    forall b | b in q.backward && b.rule == f.rule ensures back == Some(b.backward) {
      PlannedBackward(q, builtin, views, reg, f.forward.target, target, tableNs', b);
    }
  }

  // ----- two plans that meet ----------------------------------------------------------------

  const TOKEN := Object(Some("prod"), Obj(map[]))

  lemma PodRuleApplies(views: Views)
    ensures POD_RULE in RulesOf([POD_RULE], views, LookupKeys(POD, "prod"))
  {
    PodKinds();
    hide LookupKeys, SharedPods, PlainKind, ResolveViewKey, RulesOf, KeyNamespace;
    PodsKey(POD);
    assert POD_RULE in [POD_RULE];
    RulesApply([POD_RULE], views, LookupKeys(POD, "prod"), POD_RULE);
  }

  /** The plan of a pod reads the secret it names. */
  lemma PodPlanReads(p: Plan, tableNs: string) returns (f: Forwarded)
    requires PlanOf(p, [POD_RULE], map[], SharedPods(), POD, GAP_OBJECT, tableNs)
    ensures f in p.forward && f.rule == POD_RULE && f.forward.target == SECRET && ("token", "prod") in f.forward.refs
  {
    hide SharedPods, ForwardRefs, RefsTo, RulesOf, LookupKeys, Laid, Known, BackwardOf, Cause, Barred, EachOnce, Read;
    PodRuleApplies(map[]);
    PodRefs(POD);
    var refs := ForwardRefs(SharedPods(), POD_RULE, POD, GAP_OBJECT);
    assert RuleRead(POD_RULE, SharedPods(), POD, GAP_OBJECT, p.forward, p.warns);
    RefsToIsRef(refs, SECRET, "token", "prod");
    assert Ref(SECRET, "token", "prod") in refs;
    f :| f in p.forward && f.rule == POD_RULE && f.forward == Forward(SECRET, RefsTo(refs, SECRET));
  }

  /** Two plans that meet: a pod names a secret, so the secret's plan lists pods everywhere
      and finds this one. */
  method PodAndSecret(tableNs: string) returns (p: Plan, q: Plan, ghost f: Forwarded, ghost b: Backed)
    ensures PlanOf(p, [POD_RULE], map[], SharedPods(), POD, GAP_OBJECT, tableNs)
    ensures PlanOf(q, [POD_RULE], map[], SharedPods(), SECRET, TOKEN, tableNs)
    ensures f in p.forward && f.rule == POD_RULE && f.forward.target == SECRET && ("token", "prod") in f.forward.refs
    ensures b in q.backward && b.rule == POD_RULE && b.backward.from == POD && Listed(b.backward.scope, GAP_OBJECT)
    ensures NamesSource(GAP_OBJECT, POD_RULE, b.backward.default, SECRET, "token", Some("prod"))
  {
    p := MakePlan([POD_RULE], map[], SharedPods(), POD, GAP_OBJECT, tableNs);
    q := MakePlan([POD_RULE], map[], SharedPods(), SECRET, TOKEN, tableNs);
    f, b := PodAndSecretMeet(p, q, tableNs);
  }

  lemma PodAndSecretMeet(p: Plan, q: Plan, tableNs: string) returns (f: Forwarded, b: Backed)
    requires PlanOf(p, [POD_RULE], map[], SharedPods(), POD, GAP_OBJECT, tableNs)
    requires PlanOf(q, [POD_RULE], map[], SharedPods(), SECRET, TOKEN, tableNs)
    ensures f in p.forward && f.rule == POD_RULE && f.forward.target == SECRET && ("token", "prod") in f.forward.refs
    ensures b in q.backward && b.rule == POD_RULE && b.backward.from == POD && Listed(b.backward.scope, GAP_OBJECT)
    ensures NamesSource(GAP_OBJECT, POD_RULE, b.backward.default, SECRET, "token", Some("prod"))
  {
    hide PlanOf, SharedPods, NamesSource, Spells, Asked, KeyNamespace, PlainKind, Carried, ResolveViewKey, LookupKeys;
    f := PodPlanReads(p, tableNs);
    PodKinds();
    PodsKey(POD);
    var how := PlansMeet([POD_RULE], map[], SharedPods(), POD, GAP_OBJECT, p, f, "token", "prod", TOKEN, q, tableNs,
                         tableNs);
    OwnKindIff(SharedPods(), POD, "prod", how, "pods");
    b :| b in q.backward && b.rule == POD_RULE && b.backward.from == POD;
  }
}
