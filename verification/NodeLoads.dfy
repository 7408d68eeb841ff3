/** The per-node load index kept from a pod watch, and the scheduling peak of one pod
    (src/columns_metrics.rs). Amounts are signed 128-bit and never negative. */
module NodeLoads {
  import opened Wrappers

  const I128_MAX := 0x7FFF_FFFF_FFFF_FFFF_FFFF_FFFF_FFFF_FFFF

  type Amount = n: nat | n <= I128_MAX
  type Totals = map<string, Amount>

  datatype Section = Requests | Limits

  function Cap(n: nat): Amount { if n <= I128_MAX then n else I128_MAX }

  function Get(t: Totals, r: string): Amount { if r in t then t[r] else 0 }

  datatype PodLoad = PodLoad(node: string, requests: Totals, limits: Totals) {
    function Of(s: Section): Totals { if s.Requests? then requests else limits }
  }

  datatype NodeLoad = NodeLoad(pods: nat, requests: Totals, limits: Totals) {
    function Of(s: Section): Totals { if s.Requests? then requests else limits }
  }

  // ----- totals as maps ------------------------------------------------------------

  function Plus(into: Totals, from: Totals): Totals {
    map r | r in into.Keys + from.Keys :: Cap(Get(into, r) + Get(from, r))
  }

  function Larger(into: Totals, from: Totals): Totals {
    map r | r in into.Keys + from.Keys :: if Get(into, r) < Get(from, r) then Get(from, r) else Get(into, r)
  }

  /** Entries the subtraction brings to zero or below disappear. */
  function Minus(totals: Totals, from: Totals): Totals {
    map r | r in totals && (r in from ==> from[r] < totals[r]) :: totals[r] - Get(from, r)
  }

  method AddInto(into: Totals, from: Totals) returns (t: Totals)
    ensures t == Plus(into, from)
  {
    t := into;
    var rest := from.Keys;
    while rest != {}
      invariant rest <= from.Keys
      invariant t.Keys == into.Keys + (from.Keys - rest)
      invariant forall r :: r in t ==> t[r] == if r in rest then into[r] else Cap(Get(into, r) + Get(from, r))
    {
      var r :| r in rest;
      t := t[r := Cap(Get(t, r) + from[r])];
      rest := rest - {r};
    }
  }

  method MaxInto(into: Totals, from: Totals) returns (t: Totals)
    ensures t == Larger(into, from)
  {
    t := into;
    var rest := from.Keys;
    while rest != {}
      invariant rest <= from.Keys
      invariant t.Keys == into.Keys + (from.Keys - rest)
      invariant forall r :: r in t ==>
        t[r] == if r in rest || Get(into, r) >= Get(from, r) then Get(into, r) else Get(from, r)
    {
      var r :| r in rest;
      t := t[r := if Get(t, r) < from[r] then from[r] else Get(t, r)];
      rest := rest - {r};
    }
  }

  method SubtractFrom(totals: Totals, from: Totals) returns (t: Totals)
    ensures t == Minus(totals, from)
  {
    t := totals;
    var rest := from.Keys;
    while rest != {}
      invariant rest <= from.Keys
      invariant forall r :: r in t <==> r in totals && (r in from && r !in rest ==> from[r] < totals[r])
      invariant forall r :: r in t ==> t[r] == if r in rest then totals[r] else totals[r] - Get(from, r)
    {
      var r :| r in rest;
      if r in t {
        t := if t[r] <= from[r] then t - {r} else t[r := t[r] - from[r]];
      }
      rest := rest - {r};
    }
  }

  // ----- one pod's scheduling peak -------------------------------------------------

  datatype Container = Container(requests: Totals, limits: Totals) {
    function Of(s: Section): Totals { if s.Requests? then requests else limits }
  }

  /** An init container; `always` marks a native sidecar. */
  datatype Init = Init(container: Container, always: bool)

  datatype Pod = Pod(node: Option<string>, containers: seq<Container>, inits: seq<Init>,
                     podLevel: Container, overhead: Totals)

  function Owns(cs: seq<Container>, s: Section): (o: seq<Totals>)
    ensures |o| == |cs| && forall i :: 0 <= i < |o| ==> o[i] == cs[i].Of(s)
  {
    seq(|cs|, i requires 0 <= i < |cs| => cs[i].Of(s))
  }

  function Sidecars(inits: seq<Init>, s: Section): seq<Totals> {
    if inits == [] then []
    else
      var last := inits[|inits| - 1];
      Sidecars(inits[..|inits| - 1], s) + if last.always then [last.container.Of(s)] else []
  }

  /** What runs at once while init container `i` starts: it and the sidecars before it. */
  function Starting(inits: seq<Init>, s: Section, i: nat): seq<Totals>
    requires i < |inits|
  {
    Sidecars(inits[..i], s) + [inits[i].container.Of(s)]
  }

  function InitPhases(inits: seq<Init>, s: Section): seq<seq<Totals>> {
    seq(|inits|, i requires 0 <= i < |inits| => Starting(inits, s, i))
  }

  /** What runs at once after startup. */
  function Running(pod: Pod, s: Section): seq<Totals> {
    Owns(pod.containers, s) + Sidecars(pod.inits, s)
  }

  function Phases(pod: Pod, s: Section): seq<seq<Totals>> {
    InitPhases(pod.inits, s) + [Running(pod, s)]
  }

  /** The exact, unbounded sum of one resource over containers that run at once. */
  function Sum(at: seq<Totals>, r: string): nat {
    if at == [] then 0 else Sum(at[..|at| - 1], r) + Get(at[|at| - 1], r)
  }

  function Peak(phases: seq<seq<Totals>>, r: string): nat {
    if phases == [] then 0
    else
      var front, last := Peak(phases[..|phases| - 1], r), Sum(phases[|phases| - 1], r);
      if front < last then last else front
  }

  function Names(at: seq<Totals>): set<string> { set c, r | c in at && r in c :: r }

  function AllNames(phases: seq<seq<Totals>>): set<string> {
    if phases == [] then {}
    else AllNames(phases[..|phases| - 1]) + Names(phases[|phases| - 1])
  }

  predicate PodLevel(r: string) { r == "cpu" || r == "memory" || "hugepages-" <= r }

  function StartupPeak(pod: Pod, s: Section): Totals {
    map r | r in AllNames(Phases(pod, s)) :: Cap(Peak(Phases(pod, s), r))
  }

  /** Pod-level declarations replace the peak where the scheduler honours them. */
  function Declared(pod: Pod, s: Section): Totals {
    StartupPeak(pod, s) + map r | r in pod.podLevel.Of(s) && PodLevel(r) :: pod.podLevel.Of(s)[r]
  }

  function Effective(pod: Pod, s: Section): Totals {
    var declared := Declared(pod, s);
    Plus(declared, map r | r in pod.overhead && (s.Requests? || r in declared) :: pod.overhead[r])
  }

  function LoadOf(pod: Pod): Option<PodLoad> {
    if pod.node.None? then None
    else Some(PodLoad(pod.node.value, Effective(pod, Requests), Effective(pod, Limits)))
  }

  /** `t` holds the capped sums of the containers `at`. */
  ghost predicate SumsOf(t: Totals, at: seq<Totals>) {
    t.Keys == Names(at) && forall r :: Get(t, r) == Cap(Sum(at, r))
  }

  ghost predicate PeakOf(t: Totals, phases: seq<seq<Totals>>) {
    t.Keys == AllNames(phases) && forall r :: Get(t, r) == Cap(Peak(phases, r))
  }

  lemma PlusGet(into: Totals, from: Totals, r: string)
    ensures Get(Plus(into, from), r) == Cap(Get(into, r) + Get(from, r))
  {
  }

  lemma LargerGet(a: Totals, b: Totals, r: string)
    ensures Get(Larger(a, b), r) == if Get(a, r) < Get(b, r) then Get(b, r) else Get(a, r)
  {
  }

  lemma LargerCommutes(a: Totals, b: Totals)
    ensures Larger(a, b) == Larger(b, a)
  {
    assert Larger(a, b).Keys == Larger(b, a).Keys;
  }

  lemma SumOne(at: seq<Totals>, own: Totals, r: string)
    ensures Sum(at + [own], r) == Sum(at, r) + Get(own, r)
    ensures Names(at + [own]) == Names(at) + own.Keys
  {
    assert (at + [own])[..|at|] == at;
  }

  lemma PlusOne(t: Totals, at: seq<Totals>, own: Totals)
    requires SumsOf(t, at)
    ensures SumsOf(Plus(t, own), at + [own])
  {
    SumOne(at, own, "");
    assert Plus(t, own).Keys == t.Keys + own.Keys;
    hide Plus, Get, Names, Sum;
    forall r ensures Get(Plus(t, own), r) == Cap(Sum(at + [own], r)) {
      PlusGet(t, own, r);
      SumOne(at, own, r);
      assert Get(t, r) == Cap(Sum(at, r));
    }
  }

  lemma LargerOne(t: Totals, phases: seq<seq<Totals>>, step: Totals, at: seq<Totals>)
    requires PeakOf(t, phases) && SumsOf(step, at)
    ensures PeakOf(Larger(t, step), phases + [at])
  {
    var more := phases + [at];
    assert more[..|phases|] == phases;
    assert Larger(t, step).Keys == t.Keys + step.Keys;
    hide Larger, Get, Names, Sum;
    forall r ensures Get(Larger(t, step), r) == Cap(Peak(more, r)) {
      LargerGet(t, step, r);
      assert Get(t, r) == Cap(Peak(phases, r)) && Get(step, r) == Cap(Sum(at, r));
    }
  }

  lemma PeakOne(phases: seq<seq<Totals>>, at: seq<Totals>, r: string)
    ensures Peak(phases + [at], r) == if Peak(phases, r) < Sum(at, r) then Sum(at, r) else Peak(phases, r)
  {
    assert (phases + [at])[..|phases|] == phases;
  }

  lemma InitStep(inits: seq<Init>, s: Section, i: nat)
    requires i < |inits|
    ensures InitPhases(inits[..i + 1], s) == InitPhases(inits[..i], s) + [Starting(inits, s, i)]
    ensures Sidecars(inits[..i + 1], s)
         == if inits[i].always then Starting(inits, s, i) else Sidecars(inits[..i], s)
  {
    assert inits[..i + 1][..i] == inits[..i];
    forall k | 0 <= k <= i
      ensures InitPhases(inits[..i + 1], s)[k] == Starting(inits, s, k)
    {
      assert inits[..i + 1][..k] == inits[..k];
    }
    forall k | 0 <= k < i
      ensures InitPhases(inits[..i], s)[k] == Starting(inits, s, k)
    {
      assert inits[..i][..k] == inits[..k];
    }
  }

  lemma NothingYet()
    ensures SumsOf(map[], []) && PeakOf(map[], [])
  {
  }

  method SumContainers(cs: seq<Container>, s: Section) returns (total: Totals)
    ensures SumsOf(total, Owns(cs, s))
  {
    total := map[];
    for i := 0 to |cs|
      invariant SumsOf(total, Owns(cs, s)[..i])
    {
      PlusOne(total, Owns(cs, s)[..i], cs[i].Of(s));
      assert Owns(cs, s)[..i] + [cs[i].Of(s)] == Owns(cs, s)[..i + 1];
      total := AddInto(total, cs[i].Of(s));
    }
    assert Owns(cs, s)[..|cs|] == Owns(cs, s);
  }

  lemma NothingStarted(at: seq<Totals>, s: Section)
    ensures at + Sidecars([], s) == at && Sidecars([], s) == [] && InitPhases([], s) == []
  {
  }

  method SumStartup(base: Totals, at: seq<Totals>, inits: seq<Init>, s: Section)
    returns (total: Totals, peak: Totals)
    requires SumsOf(base, at)
    ensures SumsOf(total, at + Sidecars(inits, s))
    ensures PeakOf(peak, InitPhases(inits, s))
  {
    hide SumsOf, PeakOf, Plus, Larger, Sidecars, InitPhases;
    total, peak := base, map[];
    var sidecars: Totals := map[];
    NothingStarted(at, s);
    assert inits[..0] == [];
    NothingYet();
    for i := 0 to |inits|
      invariant SumsOf(total, at + Sidecars(inits[..i], s))
      invariant SumsOf(sidecars, Sidecars(inits[..i], s))
      invariant PeakOf(peak, InitPhases(inits[..i], s))
    {
      ghost var before := Sidecars(inits[..i], s);
      InitStep(inits, s, i);
      var own := inits[i].container.Of(s);
      var step := AddInto(sidecars, own);
      PlusOne(sidecars, before, own);
      if inits[i].always {
        PlusOne(total, at + before, own);
        assert at + before + [own] == at + (before + [own]);
        total := AddInto(total, own);
        sidecars := step;
      }
      LargerOne(peak, InitPhases(inits[..i], s), step, before + [own]);
      peak := MaxInto(peak, step);
    }
    assert inits[..|inits|] == inits;
  }

  lemma PeakOfBoth(total: Totals, peak: Totals, pod: Pod, s: Section)
    requires SumsOf(total, Running(pod, s)) && PeakOf(peak, InitPhases(pod.inits, s))
    ensures Larger(total, peak) == StartupPeak(pod, s)
  {
    hide SumsOf, PeakOf, Larger, Peak, AllNames, InitPhases, Running;
    LargerOne(peak, InitPhases(pod.inits, s), total, Running(pod, s));
    PeakIsMap(Larger(peak, total), Phases(pod, s));
    LargerCommutes(total, peak);
  }

  lemma PeakIsMap(t: Totals, phases: seq<seq<Totals>>)
    requires PeakOf(t, phases)
    ensures t == map r | r in AllNames(phases) :: Cap(Peak(phases, r))
  {
    hide Peak, AllNames;
    forall r | r in t ensures t[r] == Cap(Peak(phases, r)) {
      assert Get(t, r) == Cap(Peak(phases, r));
    }
  }

  method TakeDeclared(peak: Totals, declared: Totals) returns (total: Totals)
    ensures total == peak + map r | r in declared && PodLevel(r) :: declared[r]
  {
    total := peak;
    var rest := declared.Keys;
    while rest != {}
      invariant rest <= declared.Keys
      invariant total == peak + map r | r in declared && r !in rest && PodLevel(r) :: declared[r]
    {
      var r :| r in rest;
      if PodLevel(r) { total := total[r := declared[r]]; }
      rest := rest - {r};
    }
  }

  method AddOverhead(declared: Totals, overhead: Totals, s: Section) returns (total: Totals)
    ensures total == Plus(declared, map r | r in overhead && (s.Requests? || r in declared) :: overhead[r])
  {
    total := declared;
    var rest := overhead.Keys;
    while rest != {}
      invariant rest <= overhead.Keys
      invariant forall r :: r in total <==> r in declared || (r in overhead && r !in rest && s.Requests?)
      invariant forall r :: r in total ==>
        total[r] == if r in overhead && r !in rest then Cap(Get(declared, r) + overhead[r]) else declared[r]
    {
      var r :| r in rest;
      if s.Requests? || r in total {
        total := total[r := Cap(Get(total, r) + overhead[r])];
      }
      rest := rest - {r};
    }
  }

  method PodEffective(pod: Pod, s: Section) returns (total: Totals)
    ensures total == Effective(pod, s)
  {
    hide SumsOf, PeakOf, Larger, Plus, StartupPeak;
    var sum := SumContainers(pod.containers, s);
    var running, peak := SumStartup(sum, Owns(pod.containers, s), pod.inits, s);
    PeakOfBoth(running, peak, pod, s);
    total := MaxInto(running, peak);
    total := TakeDeclared(total, pod.podLevel.Of(s));
    total := AddOverhead(total, pod.overhead, s);
  }

  /** The peak is the most that any startup phase runs at once. */
  lemma {:induction false} PeakIsMaximum(phases: seq<seq<Totals>>, r: string)
    ensures forall at :: at in phases ==> Sum(at, r) <= Peak(phases, r)
    ensures phases != [] ==> exists at :: at in phases && Sum(at, r) == Peak(phases, r)
  {
    if phases != [] {
      var front, last := phases[..|phases| - 1], phases[|phases| - 1];
      PeakIsMaximum(front, r);
      assert phases == front + [last];
      assert last in phases;
    }
  }

  lemma {:induction false} SumPrefix(a: seq<Totals>, b: seq<Totals>, r: string)
    ensures Sum(a + b, r) == Sum(a, r) + Sum(b, r)
  {
    if b == [] {
      assert a + b == a;
    } else {
      assert (a + b)[..|a + b| - 1] == a + b[..|b| - 1];
      SumPrefix(a, b[..|b| - 1], r);
    }
  }

  /** The phases of the init containers that must finish, sidecars left out. */
  function FinishingPhases(inits: seq<Init>, s: Section): seq<seq<Totals>> {
    if inits == [] then []
    else
      var n := |inits| - 1;
      FinishingPhases(inits[..n], s) + if inits[n].always then [] else [Starting(inits, s, n)]
  }

  lemma {:induction false} OwnStepsAreFree(inits: seq<Init>, s: Section, r: string)
    ensures var all, some := Peak(InitPhases(inits, s), r), Peak(FinishingPhases(inits, s), r);
            var kept := Sum(Sidecars(inits, s), r);
            some <= all && (all == some || all <= kept)
  {
    if inits != [] {
      var n := |inits| - 1;
      var front := inits[..n];
      OwnStepsAreFree(front, s, r);
      InitStep(inits, s, n);
      assert inits[..n + 1] == inits;
      var step := Starting(inits, s, n);
      SumOne(Sidecars(front, s), inits[n].container.Of(s), r);
      PeakOne(InitPhases(front, s), step, r);
      PeakOne(FinishingPhases(front, s), step, r);
      assert FinishingPhases(front, s) + [] == FinishingPhases(front, s);
    }
  }

  /** Counting a sidecar's own start in the peak never changes the result: all
      sidecars still run when startup is over. */
  lemma SidecarStepsAreFree(pod: Pod, s: Section, r: string)
    ensures Peak(Phases(pod, s), r) == Peak(FinishingPhases(pod.inits, s) + [Running(pod, s)], r)
  {
    OwnStepsAreFree(pod.inits, s, r);
    SumPrefix(Owns(pod.containers, s), Sidecars(pod.inits, s), r);
    PeakOne(InitPhases(pod.inits, s), Running(pod, s), r);
    PeakOne(FinishingPhases(pod.inits, s), Running(pod, s), r);
  }

  // ----- the index ------------------------------------------------------------------

  /** What a node reports: how many pods, or how much of one resource. */
  datatype Measure = Pods | Total(section: Section, resource: string)

  function Share(p: PodLoad, node: string, m: Measure): nat {
    if p.node != node then 0 else if m.Pods? then 1 else Get(p.Of(m.section), m.resource)
  }

  /** Recomputation: the unbounded sum over every tracked pod. */
  ghost function Recount(pods: map<string, PodLoad>, node: string, m: Measure): nat {
    if pods == map[] then 0
    else
      var k :| k in pods;
      Share(pods[k], node, m) + Recount(pods - {k}, node, m)
  }

  function Reading(nodes: map<string, NodeLoad>, node: string, m: Measure): nat {
    if node !in nodes then 0
    else if m.Pods? then nodes[node].pods else Get(nodes[node].Of(m.section), m.resource)
  }

  ghost predicate Bound(pods: map<string, PodLoad>, node: string) {
    exists k :: k in pods && pods[k].node == node
  }

  /** The index agrees with recomputation everywhere: present nodes are those with a
      bound pod, and every measure, absent entries reading 0, is the exact sum. */
  ghost predicate Exact(pods: map<string, PodLoad>, nodes: map<string, NodeLoad>) {
    && (forall n :: n in nodes <==> Bound(pods, n))
    && (forall n, m :: Reading(nodes, n, m) == Recount(pods, n, m))
  }

  function Added(nodes: map<string, NodeLoad>, p: PodLoad): map<string, NodeLoad> {
    var was := if p.node in nodes then nodes[p.node] else NodeLoad(0, map[], map[]);
    nodes[p.node := NodeLoad(was.pods + 1, Plus(was.requests, p.requests), Plus(was.limits, p.limits))]
  }

  function Retired(nodes: map<string, NodeLoad>, p: PodLoad): map<string, NodeLoad> {
    if p.node !in nodes then nodes
    else
      var was := nodes[p.node];
      if was.pods <= 1 then nodes - {p.node}
      else nodes[p.node := NodeLoad(was.pods - 1, Minus(was.requests, p.requests), Minus(was.limits, p.limits))]
  }

  datatype Event = Seen(key: string, pod: Pod) | Gone(key: string) | Cleared

  datatype Index = Index(pods: map<string, PodLoad>, nodes: map<string, NodeLoad>)

  function Forgotten(i: Index, key: string): Index {
    if key in i.pods then Index(i.pods - {key}, Retired(i.nodes, i.pods[key])) else i
  }

  function Applied(i: Index, key: string, load: PodLoad): Index {
    if key in i.pods && i.pods[key] == load then i
    else
      var nodes := Added(i.nodes, load);
      Index(i.pods[key := load], if key in i.pods then Retired(nodes, i.pods[key]) else nodes)
  }

  function Next(i: Index, e: Event): Index {
    match e
    case Cleared => Index(map[], map[])
    case Gone(key) => Forgotten(i, key)
    case Seen(key, pod) =>
      var load := LoadOf(pod);
      if load.Some? then Applied(i, key, load.value) else Forgotten(i, key)
  }

  class NodeLoads {
    var pods: map<string, PodLoad>
    var nodes: map<string, NodeLoad>

    ghost function State(): Index reads this { Index(pods, nodes) }

    constructor ()
      ensures State() == Index(map[], map[])
    {
      pods, nodes := map[], map[];
    }

    method Clear()
      modifies this
      ensures State() == Next(old(State()), Cleared)
    {
      pods, nodes := map[], map[];
    }

    /** The answer says whether the index changed, pods or nodes. */
    method Apply(key: string, pod: Pod) returns (changed: bool)
      modifies this
      ensures State() == Next(old(State()), Seen(key, pod))
      ensures changed <==> State() != old(State())
    {
      hide Effective, Added, Retired;
      if pod.node.None? {
        changed := Remove(key);
        return;
      }
      var requests := PodEffective(pod, Requests);
      var limits := PodEffective(pod, Limits);
      var load := PodLoad(pod.node.value, requests, limits);
      if key in pods && pods[key] == load { return false; }
      Add(load);
      if key in pods {
        var was := pods[key];
        pods := pods[key := load];
        Retire(was);
      } else {
        pods := pods[key := load];
      }
      changed := true;
    }

    method Remove(key: string) returns (changed: bool)
      modifies this
      ensures State() == Next(old(State()), Gone(key))
      ensures changed <==> State() != old(State())
    {
      hide Retired;
      changed := key in pods;
      if changed {
        var was := pods[key];
        pods := pods - {key};
        Retire(was);
      }
    }

    method Add(p: PodLoad)
      modifies this`nodes
      ensures nodes == Added(old(nodes), p)
    {
      hide Plus;
      var was := if p.node in nodes then nodes[p.node] else NodeLoad(0, map[], map[]);
      var requests := AddInto(was.requests, p.requests);
      var limits := AddInto(was.limits, p.limits);
      nodes := nodes[p.node := NodeLoad(was.pods + 1, requests, limits)];
    }

    method Retire(p: PodLoad)
      modifies this`nodes
      ensures nodes == Retired(old(nodes), p)
    {
      hide Minus;
      if p.node !in nodes { return; }
      var was := nodes[p.node];
      var left := if was.pods > 0 then was.pods - 1 else 0;
      if left == 0 {
        nodes := nodes - {p.node};
        return;
      }
      var requests := SubtractFrom(was.requests, p.requests);
      var limits := SubtractFrom(was.limits, p.limits);
      nodes := nodes[p.node := NodeLoad(left, requests, limits)];
    }
  }

  lemma {:induction false} RecountRemove(pods: map<string, PodLoad>, key: string, n: string, m: Measure)
    requires key in pods
    ensures Recount(pods, n, m) == Share(pods[key], n, m) + Recount(pods - {key}, n, m)
    decreases |pods|
  {
    hide Share;
    var k :| k in pods && Recount(pods, n, m) == Share(pods[k], n, m) + Recount(pods - {k}, n, m);
    if k != key {
      RecountRemove(pods - {k}, key, n, m);
      RecountRemove(pods - {key}, k, n, m);
      assert pods - {k} - {key} == pods - {key} - {k};
    }
  }

  lemma {:induction false} UnboundCountsZero(pods: map<string, PodLoad>, n: string, m: Measure)
    ensures Recount(pods, n, Pods) == 0 <==> !Bound(pods, n)
    ensures Recount(pods, n, Pods) == 0 ==> Recount(pods, n, m) == 0
    decreases |pods|
  {
    if pods != map[] {
      hide Recount;
      var k :| k in pods;
      var rest := pods - {k};
      RecountRemove(pods, k, n, m);
      RecountRemove(pods, k, n, Pods);
      UnboundCountsZero(rest, n, m);
      forall q | q in pods ensures q == k || (q in rest && rest[q] == pods[q]) {
      }
    }
  }

  /** Everything already bound to the load's node, plus the load, fits. The old version
      of the same pod is still counted. */
  ghost predicate Fits(pods: map<string, PodLoad>, load: PodLoad) {
    forall s, r :: Recount(pods, load.node, Total(s, r)) + Get(load.Of(s), r) <= I128_MAX
  }

  lemma AddedReading(nodes: map<string, NodeLoad>, p: PodLoad, n: string, m: Measure)
    ensures Added(nodes, p).Keys == nodes.Keys + {p.node}
    ensures var sum := Reading(nodes, n, m) + Share(p, n, m);
            n in nodes || n == p.node ==>
            Reading(Added(nodes, p), n, m) == if m.Pods? || n != p.node then sum else Cap(sum)
  {
    hide Plus;
    if m.Total? && n == p.node {
      var was := if n in nodes then nodes[n] else NodeLoad(0, map[], map[]);
      PlusGet(was.Of(m.section), p.Of(m.section), m.resource);
    }
  }

  lemma MinusGet(t: Totals, from: Totals, r: string)
    ensures Get(Minus(t, from), r) == if Get(from, r) <= Get(t, r) then Get(t, r) - Get(from, r) else 0
  {
  }

  lemma RetiredReading(nodes: map<string, NodeLoad>, p: PodLoad, n: string, m: Measure)
    requires p.node in nodes && nodes[p.node].pods > 1
    ensures Retired(nodes, p).Keys == nodes.Keys
    ensures var left := Reading(nodes, n, m) - Share(p, n, m);
            Reading(Retired(nodes, p), n, m) == if left < 0 then 0 else left
  {
    hide Minus;
    if m.Total? && n == p.node {
      MinusGet(nodes[n].Of(m.section), p.Of(m.section), m.resource);
    }
  }

  lemma RemoveReading(i: Index, key: string, n: string, m: Measure)
    requires Exact(i.pods, i.nodes) && key in i.pods
    ensures Reading(Retired(i.nodes, i.pods[key]), n, m) == Recount(i.pods - {key}, n, m)
  {
    hide Recount;
    var p := i.pods[key];
    RecountRemove(i.pods, key, n, m);
    RecountRemove(i.pods, key, p.node, Pods);
    assert Reading(i.nodes, n, m) == Recount(i.pods, n, m);
    assert Reading(i.nodes, p.node, Pods) == Recount(i.pods, p.node, Pods);
    if i.nodes[p.node].pods > 1 {
      hide Retired;
      RetiredReading(i.nodes, p, n, m);
    } else {
      UnboundCountsZero(i.pods - {key}, p.node, m);
    }
  }

  ghost predicate Populated(nodes: map<string, NodeLoad>) { forall n :: n in nodes ==> nodes[n].pods > 0 }

  lemma CountsGivePresence(pods: map<string, PodLoad>, nodes: map<string, NodeLoad>)
    requires forall n :: Reading(nodes, n, Pods) == Recount(pods, n, Pods)
    ensures Populated(nodes) <==> forall n :: n in nodes <==> Bound(pods, n)
  {
    hide Recount, Bound;
    forall n ensures Reading(nodes, n, Pods) > 0 <==> Bound(pods, n) {
      UnboundCountsZero(pods, n, Pods);
      assert Reading(nodes, n, Pods) == Recount(pods, n, Pods);
    }
    assert forall n :: Bound(pods, n) ==> n in nodes;
    assert forall n :: n in nodes ==> Reading(nodes, n, Pods) == nodes[n].pods;
  }

  lemma RetiredIsPopulated(nodes: map<string, NodeLoad>, p: PodLoad)
    requires Populated(nodes)
    ensures Populated(Retired(nodes, p))
  {
  }

  lemma RemoveIsExact(i: Index, key: string)
    requires Exact(i.pods, i.nodes)
    ensures var j := Forgotten(i, key); Exact(j.pods, j.nodes)
  {
    hide Recount, Retired, Share;
    if key in i.pods {
      var j := Forgotten(i, key);
      forall n, m ensures Reading(j.nodes, n, m) == Recount(j.pods, n, m) {
        RemoveReading(i, key, n, m);
      }
      CountsGivePresence(i.pods, i.nodes);
      RetiredIsPopulated(i.nodes, i.pods[key]);
      CountsGivePresence(j.pods, j.nodes);
    }
  }

  /** Replacing a pod's load: the new share comes in and the old one goes out. */
  lemma RecountReplace(pods: map<string, PodLoad>, key: string, load: PodLoad, n: string, m: Measure)
    ensures Recount(pods[key := load], n, m) + (if key in pods then Share(pods[key], n, m) else 0)
         == Recount(pods, n, m) + Share(load, n, m)
  {
    hide Recount, Share;
    var after := pods[key := load];
    RecountRemove(after, key, n, m);
    if key in pods {
      RecountRemove(pods, key, n, m);
      assert after - {key} == pods - {key};
    } else {
      assert after - {key} == pods;
    }
  }

  lemma RecountBounds(pods: map<string, PodLoad>, key: string, n: string, m: Measure)
    requires key in pods
    ensures Share(pods[key], n, m) <= Recount(pods, n, m)
  {
    RecountRemove(pods, key, n, m);
  }

  /** Taking out the old version after the new one is in. */
  lemma RetireOld(i: Index, key: string, load: PodLoad, n: string, m: Measure)
    requires Exact(i.pods, i.nodes) && key in i.pods
    ensures var nodes, was := Added(i.nodes, load), i.pods[key];
            var left := Reading(nodes, n, m) - Share(was, n, m);
            Reading(Retired(nodes, was), n, m) == if left < 0 then 0 else left
  {
    hide Recount, Added;
    var nodes, was := Added(i.nodes, load), i.pods[key];
    AddedReading(i.nodes, load, was.node, Pods);
    AddedReading(i.nodes, load, n, m);
    assert Reading(i.nodes, was.node, Pods) == Recount(i.pods, was.node, Pods);
    assert Reading(i.nodes, n, m) == Recount(i.pods, n, m);
    if nodes[was.node].pods > 1 {
      hide Retired, Share;
      RetiredReading(nodes, was, n, m);
    } else {
      RecountRemove(i.pods, key, was.node, Pods);
      UnboundCountsZero(i.pods - {key}, was.node, m);
      RecountRemove(i.pods, key, n, m);
    }
  }

  /** What one measure reads after a changed load, from exact totals: the new share is
      capped before the old one is taken out. */
  lemma AppliedReading(i: Index, key: string, load: PodLoad, n: string, m: Measure)
    requires Exact(i.pods, i.nodes)
    requires key in i.pods ==> i.pods[key] != load
    ensures var was := if key in i.pods then Share(i.pods[key], n, m) else 0;
            var sum := Recount(i.pods, n, m) + Share(load, n, m);
            var capped: nat := if m.Pods? || n != load.node then sum else Cap(sum);
            Reading(Applied(i, key, load).nodes, n, m) == if was <= capped then capped - was else 0
  {
    hide Recount, Added, Retired;
    assert Reading(i.nodes, n, m) == Recount(i.pods, n, m);
    AddedReading(i.nodes, load, n, m);
    if key in i.pods {
      RetireOld(i, key, load, n, m);
    }
  }

  lemma AppliedIsPopulated(i: Index, key: string, load: PodLoad)
    requires Populated(i.nodes)
    ensures Populated(Applied(i, key, load).nodes)
  {
    hide Retired;
    assert Populated(Added(i.nodes, load));
    if key in i.pods {
      RetiredIsPopulated(Added(i.nodes, load), i.pods[key]);
    }
  }

  lemma AppliedMeasure(i: Index, key: string, load: PodLoad, n: string, m: Measure)
    requires Exact(i.pods, i.nodes)
    requires key in i.pods ==> i.pods[key] != load
    ensures var j := Applied(i, key, load);
            Reading(j.nodes, n, m) == Recount(j.pods, n, m)
            <==> m.Pods? || n != load.node || Recount(i.pods, n, m) + Share(load, n, m) <= I128_MAX
  {
    hide Recount, Applied;
    AppliedReading(i, key, load, n, m);
    RecountReplace(i.pods, key, load, n, m);
    if key in i.pods { RecountBounds(i.pods, key, n, m); }
    assert Applied(i, key, load).pods == i.pods[key := load] by { AppliedPods(i, key, load); }
  }

  lemma AppliedPods(i: Index, key: string, load: PodLoad)
    ensures Applied(i, key, load).pods == i.pods[key := load]
  {
  }

  /** The exact condition: from exact totals a new version of a pod leaves exact totals
      just when it changes nothing or the transient sum, taken before the old version
      is retired, fits. */
  lemma ApplyIsExactIff(i: Index, key: string, load: PodLoad)
    requires Exact(i.pods, i.nodes)
    ensures var j := Applied(i, key, load);
            Exact(j.pods, j.nodes) <==> (key in i.pods && i.pods[key] == load) || Fits(i.pods, load)
  {
    hide Recount, Applied, Share, Populated;
    if key in i.pods && i.pods[key] == load {
      assert Applied(i, key, load) == i by { UnchangedLoad(i, key, load); }
      return;
    }
    var j := Applied(i, key, load);
    forall m {:trigger Recount(i.pods, load.node, m)} ensures Share(load, load.node, m)
          == if m.Pods? then 1 else Get(load.Of(m.section), m.resource) {
      OwnShare(load, m);
    }
    if Fits(i.pods, load) {
      forall n, m ensures Reading(j.nodes, n, m) == Recount(j.pods, n, m) {
        AppliedMeasure(i, key, load, n, m);
      }
      CountsGivePresence(i.pods, i.nodes);
      AppliedIsPopulated(i, key, load);
      CountsGivePresence(j.pods, j.nodes);
    } else {
      var s, r :| Recount(i.pods, load.node, Total(s, r)) + Get(load.Of(s), r) > I128_MAX;
      AppliedMeasure(i, key, load, load.node, Total(s, r));
    }
  }

  lemma OwnShare(load: PodLoad, m: Measure)
    ensures Share(load, load.node, m) == if m.Pods? then 1 else Get(load.Of(m.section), m.resource)
  {
  }

  lemma UnchangedLoad(i: Index, key: string, load: PodLoad)
    requires key in i.pods && i.pods[key] == load
    ensures Applied(i, key, load) == i
  {
  }

  function Cpu(n: Amount): PodLoad { PodLoad("n1", map["cpu" := n], map[]) }

  lemma OnePodIsExact(key: string, load: PodLoad)
    ensures var i := Applied(Index(map[], map[]), key, load); Exact(i.pods, i.nodes)
  {
    NothingIsExact();
    hide Applied, Recount;
    ApplyIsExactIff(Index(map[], map[]), key, load);
    assert Recount(map[], load.node, Pods) == 0 by { NothingCounted(); }
    NothingCounted();
  }

  lemma NothingCounted()
    ensures forall n, m :: Recount(map[], n, m) == 0
  {
  }

  /** A pod that asks for the largest amount is seen again asking for 1. Its new share
      comes in on top of the old one and is cut off, so the node then reads 0. */
  lemma TransientSumIsLost()
    ensures var i := Applied(Index(map[], map[]), "a", Cpu(I128_MAX));
            var j := Applied(i, "a", Cpu(1));
            && Exact(i.pods, i.nodes)
            && Reading(j.nodes, "n1", Total(Requests, "cpu")) == 0
            && Recount(j.pods, "n1", Total(Requests, "cpu")) == 1
  {
    var none := Index(map[], map[]);
    var i := Applied(none, "a", Cpu(I128_MAX));
    OnePodIsExact("a", Cpu(I128_MAX));
    AppliedPods(none, "a", Cpu(I128_MAX));
    AppliedPods(i, "a", Cpu(1));
    OnePodCounts("a", Cpu(I128_MAX), "n1", Total(Requests, "cpu"));
    OnePodCounts("a", Cpu(1), "n1", Total(Requests, "cpu"));
    hide Applied, Recount, Exact;
    assert none.pods["a" := Cpu(I128_MAX)] == map["a" := Cpu(I128_MAX)];
    assert i.pods["a" := Cpu(1)] == map["a" := Cpu(1)];
    AppliedReading(i, "a", Cpu(1), "n1", Total(Requests, "cpu"));
  }

  lemma OnePodCounts(key: string, load: PodLoad, n: string, m: Measure)
    ensures Recount(map[key := load], n, m) == Share(load, n, m)
  {
    RecountRemove(map[key := load], key, n, m);
    assert map[key := load] - {key} == map[];
  }

  /** What an update shows: from exact totals, and when the transient sum fits, every node
      reads as before exactly when the pod was known on the same node with the same
      amounts, an absent amount being 0. */
  lemma ReadingsStayIff(i: Index, key: string, load: PodLoad)
    requires Exact(i.pods, i.nodes) && Fits(i.pods, load)
    ensures (forall n, m :: Reading(Applied(i, key, load).nodes, n, m) == Reading(i.nodes, n, m))
       <==> && key in i.pods && i.pods[key].node == load.node
            && forall s, r :: Get(i.pods[key].Of(s), r) == Get(load.Of(s), r)
  {
    hide Recount, Applied;
    var j := Applied(i, key, load);
    ApplyIsExactIff(i, key, load);
    AppliedPods(i, key, load);
    forall n, m ensures Reading(j.nodes, n, m) - Reading(i.nodes, n, m)
                     == Share(load, n, m) - if key in i.pods then Share(i.pods[key], n, m) else 0
    {
      RecountReplace(i.pods, key, load, n, m);
      assert Reading(j.nodes, n, m) == Recount(j.pods, n, m) && Reading(i.nodes, n, m) == Recount(i.pods, n, m);
    }
    SharesAgreeIff(i, key, load);
  }

  lemma SharesAgreeIff(i: Index, key: string, load: PodLoad)
    ensures (forall n, m :: Share(load, n, m) == if key in i.pods then Share(i.pods[key], n, m) else 0)
       <==> && key in i.pods && i.pods[key].node == load.node
            && forall s, r :: Get(i.pods[key].Of(s), r) == Get(load.Of(s), r)
  {
    assert Share(load, load.node, Pods) == 1;
    if key in i.pods && i.pods[key].node == load.node {
      forall s, r ensures Share(load, load.node, Total(s, r)) == Get(load.Of(s), r)
                  ensures Share(i.pods[key], load.node, Total(s, r)) == Get(i.pods[key].Of(s), r)
      {
      }
    }
  }

  /** Whether taking out `was` after `load` came in leaves the entry of `r` there or away as
      it is in `t`, the amounts being equal: no entry of 0 is retired and none is left. */
  predicate EntryStays(t: Totals, was: Totals, load: Totals, r: string) {
    && (r in t && t[r] == 0 ==> r !in was)
    && (r in load && r !in t ==> r in was)
  }

  lemma TotalsStayIff(t: Totals, was: Totals, load: Totals)
    requires forall r :: Get(was, r) == Get(load, r)
    requires forall r :: Get(t, r) + Get(load, r) <= I128_MAX
    ensures Minus(Plus(t, load), was) == t <==> forall r :: EntryStays(t, was, load, r)
  {
    var after := Minus(Plus(t, load), was);
    forall r ensures r in after ==> after[r] == Get(t, r)
             ensures (r in after <==> r in t) <==> EntryStays(t, was, load, r)
    {
      assert Get(was, r) == Get(load, r) && Get(t, r) + Get(load, r) <= I128_MAX;
    }
    hide EntryStays;
  }

  lemma ReplacedOnNode(i: Index, key: string, load: PodLoad)
    requires key in i.pods && i.pods[key] != load && i.pods[key].node == load.node
    requires load.node in i.nodes && i.nodes[load.node].pods > 0
    ensures var was, now := i.nodes[load.node], Applied(i, key, load).nodes[load.node];
      && Applied(i, key, load).nodes == i.nodes[load.node := now] && now.pods == was.pods
      && forall s: Section :: now.Of(s) == Minus(Plus(was.Of(s), load.Of(s)), i.pods[key].Of(s))
  {
    hide Plus, Minus;
  }

  /** The exact condition: from exact totals, and when the transient sum fits, an update
      leaves every node as it was exactly when nothing changed at all, or the pod was known
      on the same node with the same amounts and no entry of 0 comes or goes. */
  lemma NodesStayIff(i: Index, key: string, load: PodLoad)
    requires Exact(i.pods, i.nodes) && Fits(i.pods, load)
    ensures Applied(i, key, load).nodes == i.nodes
       <==> || (key in i.pods && i.pods[key] == load)
            || (&& key in i.pods && i.pods[key].node == load.node && load.node in i.nodes
                && (forall s, r :: Get(i.pods[key].Of(s), r) == Get(load.Of(s), r))
                && forall s, r :: EntryStays(i.nodes[load.node].Of(s), i.pods[key].Of(s), load.Of(s), r))
  {
    hide Applied, Recount, EntryStays, Reading;
    ReadingsStayIff(i, key, load);
    if key in i.pods && i.pods[key] == load {
      UnchangedLoad(i, key, load);
    } else if && key in i.pods && i.pods[key].node == load.node
              && forall s, r :: Get(i.pods[key].Of(s), r) == Get(load.Of(s), r) {
      var was := i.nodes[load.node];
      NodeIsCounted(i, load.node);
      ReplacedOnNode(i, key, load);
      forall s ensures Minus(Plus(was.Of(s), load.Of(s)), i.pods[key].Of(s)) == was.Of(s)
                  <==> forall r :: EntryStays(was.Of(s), i.pods[key].Of(s), load.Of(s), r)
      {
        forall r ensures Get(was.Of(s), r) + Get(load.Of(s), r) <= I128_MAX {
          NodeIsExact(i, load.node, s, r);
        }
        TotalsStayIff(was.Of(s), i.pods[key].Of(s), load.Of(s));
      }
      NodeIsItsTotals(Applied(i, key, load).nodes[load.node], was);
    }
  }

  lemma NodeIsCounted(i: Index, n: string)
    requires Exact(i.pods, i.nodes) && Bound(i.pods, n)
    ensures n in i.nodes && i.nodes[n].pods > 0
  {
    assert Reading(i.nodes, n, Pods) == Recount(i.pods, n, Pods);
    UnboundCountsZero(i.pods, n, Pods);
  }

  lemma NodeIsExact(i: Index, n: string, s: Section, r: string)
    requires Exact(i.pods, i.nodes) && n in i.nodes
    ensures Get(i.nodes[n].Of(s), r) == Recount(i.pods, n, Total(s, r))
  {
    assert Reading(i.nodes, n, Total(s, r)) == Recount(i.pods, n, Total(s, r));
  }

  lemma NodeIsItsTotals(a: NodeLoad, b: NodeLoad)
    requires a.pods == b.pods
    ensures a == b <==> forall s :: a.Of(s) == b.Of(s)
  {
    assert a.Of(Requests) == a.requests && a.Of(Limits) == a.limits;
  }

  /** Forgetting a pod, on the other hand, always shows: `remove` answers true exactly when
      the nodes changed. */
  lemma RemovalShows(i: Index, key: string)
    requires Exact(i.pods, i.nodes)
    ensures Forgotten(i, key).nodes == i.nodes <==> key !in i.pods
  {
    hide Recount, Retired;
    if key in i.pods {
      var n := i.pods[key].node;
      RemoveReading(i, key, n, Pods);
      RecountRemove(i.pods, key, n, Pods);
      assert Reading(i.nodes, n, Pods) == Recount(i.pods, n, Pods);
    }
  }

  const ZERO_CPU := PodLoad("n1", map["cpu" := 0], map[])
  const NO_CPU := PodLoad("n1", map[], map[])

  /** Three pods arrive and the third leaves: two ask for 0 and one for nothing. */
  function ThreeThenTwo(): Index {
    Forgotten(Applied(Applied(Applied(Index(map[], map[]), "a", ZERO_CPU), "b", NO_CPU), "c", ZERO_CPU), "c")
  }

  lemma AppliedNew(i: Index, key: string, load: PodLoad)
    requires key !in i.pods
    ensures Applied(i, key, load) == Index(i.pods[key := load], Added(i.nodes, load))
  {
  }

  lemma AddedAgain(pods: nat, requests: Totals, load: PodLoad)
    requires load.node == "n1"
    ensures Added(map["n1" := NodeLoad(pods, requests, map[])], load)
         == map["n1" := NodeLoad(pods + 1, Plus(requests, load.requests), Plus(map[], load.limits))]
    ensures pods > 1 ==>
              Retired(map["n1" := NodeLoad(pods, requests, map[])], load)
              == map["n1" := NodeLoad(pods - 1, Minus(requests, load.requests), Minus(map[], load.limits))]
  {
    hide Plus, Minus;
  }

  lemma ZeroEntries()
    ensures var zero: Totals := map["cpu" := 0];
      && Plus(map[], zero) == zero && Plus(zero, map[]) == zero && Plus(zero, zero) == zero
      && Minus(zero, zero) == map[]
  {
  }

  lemma ThreeThenTwoIs()
    ensures ThreeThenTwo() == Index(map["a" := ZERO_CPU, "b" := NO_CPU], map["n1" := NodeLoad(2, map[], map[])])
  {
    hide Plus, Minus, Added, Retired, Applied;
    ZeroEntries();
    NoTotals(map[]);
    var zero: Totals := map["cpu" := 0];
    var none := Index(map[], map[]);
    assert Added(map[], ZERO_CPU) == map["n1" := NodeLoad(1, zero, map[])] by { AddedFirst(ZERO_CPU); }
    AddedAgain(1, zero, NO_CPU);
    AddedAgain(2, zero, ZERO_CPU);
    AddedAgain(3, zero, ZERO_CPU);
    AppliedNew(none, "a", ZERO_CPU);
    AppliedNew(Applied(none, "a", ZERO_CPU), "b", NO_CPU);
    AppliedNew(Applied(Applied(none, "a", ZERO_CPU), "b", NO_CPU), "c", ZERO_CPU);
    assert map["a" := ZERO_CPU, "b" := NO_CPU, "c" := ZERO_CPU] - {"c"} == map["a" := ZERO_CPU, "b" := NO_CPU];
  }

  lemma AddedFirst(load: PodLoad)
    ensures Added(map[], load)
         == map[load.node := NodeLoad(1, Plus(map[], load.requests), Plus(map[], load.limits))]
  {
    hide Plus;
  }

  /** An update that answers true and changes no node: the pod that asked for 0 is seen
      asking for nothing, beside another. The source's comment promises otherwise. */
  lemma TrueWithoutAChange()
    ensures var i := ThreeThenTwo();
            Applied(i, "a", NO_CPU) != i && Applied(i, "a", NO_CPU).nodes == i.nodes
  {
    ThreeThenTwoIs();
    NoTotals(ZERO_CPU.requests);
    var i := ThreeThenTwo();
    hide Plus, Minus, Added, Retired, ThreeThenTwo;
    AddedAgain(2, map[], NO_CPU);
    AddedAgain(3, map[], ZERO_CPU);
    assert "cpu" in ZERO_CPU.requests && ZERO_CPU != NO_CPU;
    AppliedPods(i, "a", NO_CPU);
    assert i.pods["a" := NO_CPU]["a"] != i.pods["a"];
  }

  lemma NoTotals(from: Totals)
    ensures Plus(map[], map[]) == map[] && Minus(map[], from) == map[] && Minus(map[], map[]) == map[]
  {
  }

  // ----- whole histories ---------------------------------------------------------------

  function Run(events: seq<Event>): Index {
    if events == [] then Index(map[], map[])
    else Next(Run(events[..|events| - 1]), events[|events| - 1])
  }

  /** The latest load of every pod still known, computed without any totals. */
  function Tracked(events: seq<Event>): map<string, PodLoad> {
    if events == [] then map[]
    else
      var before, e := Tracked(events[..|events| - 1]), events[|events| - 1];
      match e
      case Cleared => map[]
      case Gone(key) => before - {key}
      case Seen(key, pod) =>
        var load := LoadOf(pod);
        if load.Some? then before[key := load.value] else before - {key}
  }

  ghost predicate AlwaysFits(events: seq<Event>) {
    forall k {:trigger events[k]} :: 0 <= k < |events| && events[k].Seen? ==>
      var load := LoadOf(events[k].pod); load.Some? ==> Fits(Tracked(events[..k]), load.value)
  }

  /** After any sequence of events the index agrees with recomputation over the pods
      that are left, provided no transient sum leaves the signed 128-bit range. */
  lemma {:induction false} RunIsExact(events: seq<Event>)
    requires AlwaysFits(events)
    ensures Run(events).pods == Tracked(events) && Exact(Tracked(events), Run(events).nodes)
  {
    hide Recount, Applied, Fits, LoadOf, Retired, Reading;
    if events == [] {
      NothingIsExact();
      return;
    }
    var n := |events| - 1;
    var front, e := events[..n], events[n];
    forall k | 0 <= k < n ensures front[k] == events[k] && front[..k] == events[..k] {
    }
    assert AlwaysFits(front);
    RunIsExact(front);
    var i := Run(front);
    match e
    case Cleared => NothingIsExact();
    case Gone(key) => RemoveIsExact(i, key);
    case Seen(key, pod) =>
      var load := LoadOf(pod);
      if load.Some? {
        ApplyIsExactIff(i, key, load.value);
        AppliedPods(i, key, load.value);
      } else {
        RemoveIsExact(i, key);
      }
  }

  lemma NothingIsExact()
    ensures Exact(map[], map[])
  {
  }

  // ----- what the index says, from the pods themselves -------------------------------------

  /** The amounts a container is given in one of its two maps. */
  function Given(c: Container, requests: bool): Totals { if requests then c.requests else c.limits }

  function ContainerSum(cs: seq<Container>, requests: bool, r: string): nat {
    if cs == [] then 0
    else ContainerSum(cs[..|cs| - 1], requests, r) + Get(Given(cs[|cs| - 1], requests), r)
  }

  /** The native sidecars, which keep running once started. */
  function SidecarSum(inits: seq<Init>, requests: bool, r: string): nat {
    if inits == [] then 0
    else
      var last := inits[|inits| - 1];
      SidecarSum(inits[..|inits| - 1], requests, r) + if last.always then Get(Given(last.container, requests), r) else 0
  }

  /** The most that is needed at once: after startup, or while one of the first `i` init
      containers runs beside the sidecars before it. */
  function MostNeeded(pod: Pod, requests: bool, r: string, i: nat): nat
    requires i <= |pod.inits|
  {
    if i == 0 then ContainerSum(pod.containers, requests, r) + SidecarSum(pod.inits, requests, r)
    else
      var before := MostNeeded(pod, requests, r, i - 1);
      var here := SidecarSum(pod.inits[..i - 1], requests, r) + Get(Given(pod.inits[i - 1].container, requests), r);
      if before < here then here else before
  }

  /** Some container, or the pod as a whole where that counts, gives an amount for `r`. */
  predicate Mentions(pod: Pod, requests: bool, r: string) {
    || (exists c :: c in pod.containers && r in Given(c, requests))
    || (exists i :: i in pod.inits && r in Given(i.container, requests))
    || (r in Given(pod.podLevel, requests) && WholePod(r))
  }

  predicate WholePod(r: string) {
    r == "cpu" || r == "memory" || (|r| >= 10 && r[..10] == "hugepages-")
  }

  /** What one pod counts for: the pod's own amount where it has one that the scheduler honours,
      else the most needed at once; plus its overhead, which a limit only gets where there is
      one. */
  function PodAmount(pod: Pod, requests: bool, r: string): nat {
    var own := Given(pod.podLevel, requests);
    var base := if r in own && WholePod(r) then own[r] else Cap(MostNeeded(pod, requests, r, |pod.inits|));
    if r in pod.overhead && (requests || Mentions(pod, requests, r)) then Cap(base + pod.overhead[r]) else base
  }

  function SectionOf(requests: bool): Section { if requests then Requests else Limits }

  lemma {:induction false} OwnsSum(cs: seq<Container>, requests: bool, r: string)
    ensures Sum(Owns(cs, SectionOf(requests)), r) == ContainerSum(cs, requests, r)
  {
    var owns := Owns(cs, SectionOf(requests));
    if cs != [] {
      var n := |cs| - 1;
      OwnsSum(cs[..n], requests, r);
      assert owns[..n] == Owns(cs[..n], SectionOf(requests));
    }
  }

  lemma {:induction false} SidecarsSum(inits: seq<Init>, requests: bool, r: string)
    ensures Sum(Sidecars(inits, SectionOf(requests)), r) == SidecarSum(inits, requests, r)
  {
    if inits != [] {
      var n := |inits| - 1;
      SidecarsSum(inits[..n], requests, r);
      var before, own := Sidecars(inits[..n], SectionOf(requests)), inits[n].container.Of(SectionOf(requests));
      SumOne(before, own, r);
      assert before + [] == before;
    }
  }

  lemma RunningSum(pod: Pod, requests: bool, r: string)
    ensures Sum(Running(pod, SectionOf(requests)), r)
         == ContainerSum(pod.containers, requests, r) + SidecarSum(pod.inits, requests, r)
  {
    hide Sum, Owns, Sidecars, ContainerSum, SidecarSum;
    OwnsSum(pod.containers, requests, r);
    SidecarsSum(pod.inits, requests, r);
    SumPrefix(Owns(pod.containers, SectionOf(requests)), Sidecars(pod.inits, SectionOf(requests)), r);
  }

  lemma StartingSum(inits: seq<Init>, requests: bool, r: string, i: nat)
    requires i < |inits|
    ensures Sum(Starting(inits, SectionOf(requests), i), r)
         == SidecarSum(inits[..i], requests, r) + Get(Given(inits[i].container, requests), r)
  {
    hide Sum, Sidecars, SidecarSum, Get;
    SidecarsSum(inits[..i], requests, r);
    SumOne(Sidecars(inits[..i], SectionOf(requests)), inits[i].container.Of(SectionOf(requests)), r);
  }

  function Max(a: nat, b: nat): nat { if a < b then b else a }

  lemma {:induction false} PeakIsMost(pod: Pod, requests: bool, r: string, i: nat)
    requires i <= |pod.inits|
    ensures var s := SectionOf(requests);
            Max(Peak(InitPhases(pod.inits[..i], s), r), Sum(Running(pod, s), r)) == MostNeeded(pod, requests, r, i)
  {
    hide Sum, Running, Starting, SidecarSum, Sidecars, ContainerSum, Given, Get;
    var s := SectionOf(requests);
    if i == 0 {
      RunningSum(pod, requests, r);
      assert InitPhases(pod.inits[..0], s) == [];
    } else {
      PeakIsMost(pod, requests, r, i - 1);
      InitStep(pod.inits, s, i - 1);
      PeakOne(InitPhases(pod.inits[..i - 1], s), Starting(pod.inits, s, i - 1), r);
      StartingSum(pod.inits, requests, r, i - 1);
    }
  }

  lemma PodPeak(pod: Pod, requests: bool, r: string)
    ensures Peak(Phases(pod, SectionOf(requests)), r) == MostNeeded(pod, requests, r, |pod.inits|)
  {
    hide Sum, Running, Starting, InitPhases, MostNeeded;
    var s := SectionOf(requests);
    PeakIsMost(pod, requests, r, |pod.inits|);
    assert pod.inits[..|pod.inits|] == pod.inits;
    PeakOne(InitPhases(pod.inits, s), Running(pod, s), r);
  }

  lemma {:induction false} InAllNames(phases: seq<seq<Totals>>, r: string)
    ensures r in AllNames(phases) <==> exists at, c :: at in phases && c in at && r in c
  {
    if phases != [] {
      var n := |phases| - 1;
      InAllNames(phases[..n], r);
      assert phases == phases[..n] + [phases[n]];
    }
  }

  lemma {:induction false} InSidecars(inits: seq<Init>, s: Section, c: Totals)
    ensures c in Sidecars(inits, s) ==> exists i :: i in inits && i.container.Of(s) == c
  {
    if inits != [] {
      var n := |inits| - 1;
      InSidecars(inits[..n], s, c);
      assert inits == inits[..n] + [inits[n]];
    }
  }

  /** A resource has a peak exactly when some container gives it an amount. */
  lemma NamedSomewhere(pod: Pod, requests: bool, r: string)
    ensures r in AllNames(Phases(pod, SectionOf(requests)))
       <==> || (exists c :: c in pod.containers && r in Given(c, requests))
            || (exists i :: i in pod.inits && r in Given(i.container, requests))
  {
    hide AllNames, Sidecars;
    var s := SectionOf(requests);
    var phases, owns := Phases(pod, s), Owns(pod.containers, s);
    InAllNames(phases, r);
    if at, c :| at in phases && c in at && r in c {
      if k :| 0 <= k < |owns| && owns[k] == c {
        assert pod.containers[k] in pod.containers && r in Given(pod.containers[k], requests);
      } else {
        PhaseFromInits(pod, s, at, c);
        var i :| i in pod.inits && i.container.Of(s) == c;
        assert r in Given(i.container, requests);
      }
    }
    if c :| c in pod.containers && r in Given(c, requests) {
      var k :| 0 <= k < |pod.containers| && pod.containers[k] == c;
      assert owns[k] in Running(pod, s) && Running(pod, s) == phases[|phases| - 1];
    }
    if i :| i in pod.inits && r in Given(i.container, requests) {
      var k :| 0 <= k < |pod.inits| && pod.inits[k] == i;
      var at := Starting(pod.inits, s, k);
      assert phases[k] == at && at[|at| - 1] == i.container.Of(s) && at[|at| - 1] in at;
    }
  }

  lemma PhaseFromInits(pod: Pod, s: Section, at: seq<Totals>, c: Totals)
    requires at in Phases(pod, s) && c in at && c !in Owns(pod.containers, s)
    ensures exists i :: i in pod.inits && i.container.Of(s) == c
  {
    var phases := Phases(pod, s);
    var k :| 0 <= k < |phases| && phases[k] == at;
    if k == |pod.inits| {
      InSidecars(pod.inits, s, c);
    } else {
      InSidecars(pod.inits[..k], s, c);
      assert pod.inits[k] in pod.inits && forall i :: i in pod.inits[..k] ==> i in pod.inits;
    }
  }

  lemma {:induction false} NoPeak(phases: seq<seq<Totals>>, r: string)
    requires r !in AllNames(phases)
    ensures Peak(phases, r) == 0
  {
    if phases != [] {
      NoPeak(phases[..|phases| - 1], r);
      NoSum(phases[|phases| - 1], r);
    }
  }

  lemma {:induction false} NoSum(at: seq<Totals>, r: string)
    requires r !in Names(at)
    ensures Sum(at, r) == 0
  {
    if at != [] {
      var n := |at| - 1;
      assert at[n] in at && forall c :: c in at[..n] ==> c in at;
      NoSum(at[..n], r);
    }
  }

  lemma WholePodIs(r: string)
    ensures PodLevel(r) <==> WholePod(r)
  {
    assert |r| >= 10 && r[..10] == "hugepages-" ==> "hugepages-" <= r;
  }

  lemma DeclaredIs(pod: Pod, requests: bool, r: string)
    ensures var own := Given(pod.podLevel, requests);
      && Get(Declared(pod, SectionOf(requests)), r)
         == (if r in own && WholePod(r) then own[r] else Cap(MostNeeded(pod, requests, r, |pod.inits|)))
      && (r in Declared(pod, SectionOf(requests)) <==> Mentions(pod, requests, r))
  {
    hide AllNames, Peak, Phases, MostNeeded, PodLevel, WholePod;
    WholePodIs(r);
    PodPeak(pod, requests, r);
    NamedSomewhere(pod, requests, r);
    if r !in AllNames(Phases(pod, SectionOf(requests))) { NoPeak(Phases(pod, SectionOf(requests)), r); }
  }

  /** What the index keeps for a pod is what the pod itself asks for. */
  lemma EffectiveIsPodAmount(pod: Pod, requests: bool, r: string)
    ensures Get(Effective(pod, SectionOf(requests)), r) == PodAmount(pod, requests, r)
  {
    hide Declared, MostNeeded, Mentions, WholePod, Plus;
    var s := SectionOf(requests);
    var declared := Declared(pod, s);
    DeclaredIs(pod, requests, r);
    PlusGet(declared, map r | r in pod.overhead && (s.Requests? || r in declared) :: pod.overhead[r], r);
  }

  /** The last version seen of every pod that is bound to a node and has not gone. */
  function LastSeen(events: seq<Event>): map<string, Pod> {
    if events == [] then map[]
    else
      var before, e := LastSeen(events[..|events| - 1]), events[|events| - 1];
      match e
      case Cleared => map[]
      case Gone(key) => before - {key}
      case Seen(key, pod) => if pod.node.Some? then before[key := pod] else before - {key}
  }

  /** The exact sum over the pods bound to one node. */
  ghost function PodSum(pods: map<string, Pod>, n: string, requests: bool, r: string): nat {
    if pods == map[] then 0
    else
      var k :| k in pods;
      PodSum(pods - {k}, n, requests, r) + if pods[k].node == Some(n) then PodAmount(pods[k], requests, r) else 0
  }

  ghost predicate Kept(loads: map<string, PodLoad>, pods: map<string, Pod>) {
    loads.Keys == pods.Keys && forall k :: k in pods ==> LoadOf(pods[k]) == Some(loads[k])
  }

  lemma {:induction false} TrackedIsLastSeen(events: seq<Event>)
    ensures Kept(Tracked(events), LastSeen(events))
  {
    hide LoadOf;
    if events != [] {
      TrackedIsLastSeen(events[..|events| - 1]);
      var e := events[|events| - 1];
      if e.Seen? { LoadNeedsNode(e.pod); }
    }
  }

  lemma LoadNeedsNode(pod: Pod)
    ensures LoadOf(pod).Some? <==> pod.node.Some?
  {
  }

  lemma ShareIsPodAmount(pod: Pod, load: PodLoad, n: string, requests: bool, r: string)
    requires LoadOf(pod) == Some(load)
    ensures Share(load, n, Total(SectionOf(requests), r))
         == if pod.node == Some(n) then PodAmount(pod, requests, r) else 0
  {
    hide Effective, PodAmount;
    EffectiveIsPodAmount(pod, requests, r);
  }

  lemma {:induction false} RecountIsPodSum(loads: map<string, PodLoad>, pods: map<string, Pod>, n: string,
                                           requests: bool, r: string)
    requires Kept(loads, pods)
    ensures Recount(loads, n, Total(SectionOf(requests), r)) == PodSum(pods, n, requests, r)
    decreases |pods|
  {
    hide Share, LoadOf, PodAmount, Recount;
    if pods == map[] {
      assert loads == map[];
      NothingCounted();
    } else {
      var k :| k in pods && PodSum(pods, n, requests, r)
        == PodSum(pods - {k}, n, requests, r) + if pods[k].node == Some(n) then PodAmount(pods[k], requests, r) else 0;
      RecountRemove(loads, k, n, Total(SectionOf(requests), r));
      ShareIsPodAmount(pods[k], loads[k], n, requests, r);
      RecountIsPodSum(loads - {k}, pods - {k}, n, requests, r);
    }
  }

  /** After any events a node's requests are the sum of what the pods last seen on it request,
      and its limits the sum of their limits, resource by resource; and the nodes are those with
      such a pod. */
  lemma NodesSumTheirPods(events: seq<Event>)
    requires AlwaysFits(events)
    ensures var nodes, pods := Run(events).nodes, LastSeen(events);
      && (forall n :: n in nodes <==> exists k :: k in pods && pods[k].node == Some(n))
      && (forall n, r :: n in nodes ==> Get(nodes[n].requests, r) == PodSum(pods, n, true, r))
      && (forall n, r :: n in nodes ==> Get(nodes[n].limits, r) == PodSum(pods, n, false, r))
  {
    hide Run, Tracked, LastSeen, Recount, PodSum, LoadOf, AlwaysFits;
    RunIsExact(events);
    TrackedIsLastSeen(events);
    var nodes, loads, pods := Run(events).nodes, Tracked(events), LastSeen(events);
    forall n ensures n in nodes <==> exists k :: k in pods && pods[k].node == Some(n) {
      BoundToNode(loads, pods, n);
    }
    forall n, r | n in nodes
      ensures Get(nodes[n].requests, r) == PodSum(pods, n, true, r)
      ensures Get(nodes[n].limits, r) == PodSum(pods, n, false, r)
    {
      RecountIsPodSum(loads, pods, n, true, r);
      RecountIsPodSum(loads, pods, n, false, r);
      assert Reading(nodes, n, Total(Requests, r)) == Recount(loads, n, Total(Requests, r));
      assert Reading(nodes, n, Total(Limits, r)) == Recount(loads, n, Total(Limits, r));
    }
  }

  lemma BoundToNode(loads: map<string, PodLoad>, pods: map<string, Pod>, n: string)
    requires Kept(loads, pods)
    ensures Bound(loads, n) <==> exists k :: k in pods && pods[k].node == Some(n)
  {
    hide Effective;
    if k :| k in loads && loads[k].node == n { assert LoadOf(pods[k]) == Some(loads[k]); }
    if k :| k in pods && pods[k].node == Some(n) { assert LoadOf(pods[k]) == Some(loads[k]); }
  }
}
