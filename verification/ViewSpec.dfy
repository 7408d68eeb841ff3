/** Laying a user's columns over the curated ones (the overlay loop of `build_spec`,
    src/columns.rs). */
module ViewSpec {
  import opened Wrappers
  import opened CuratedColumns
  import opened Cells

  /** A column as shown: its header and where its cells come from. */
  datatype SpecColumn = SpecColumn(header: string, cell: ViewColumn)

  /** A configured column: a curated one by its own header, or anything else, which the
      kind may not support. */
  datatype UserColumn =
    | Builtin(header: string, pointer: string)
    | Own(header: string, supported: bool, at: Option<int>, text: string, time: bool)

  function Find(table: seq<Column>, header: string): (c: Option<Column>)
    ensures c.Some? ==> c.value in table && c.value.header == header
    ensures c.None? ==> forall d :: d in table ==> d.header != header
  {
    if table == [] then None else if table[0].header == header then Some(table[0]) else Find(table[1..], header)
  }

  /** What a configured column resolves to; None when the kind does not have it. */
  function Resolved(table: seq<Column>, u: UserColumn): Option<SpecColumn> {
    match u
    case Builtin(header, pointer) =>
      var c := Find(table, pointer);
      if c.Some? then Some(SpecColumn(header, Curated(c.value))) else None
    case Own(header, supported, at, text, time) =>
      if !supported then None
      else Some(SpecColumn(header, if time then UserTime(at, text) else Other(text)))
  }

  function Plain(table: seq<Column>): (cols: seq<SpecColumn>)
    ensures |cols| == |table|
    ensures forall i :: 0 <= i < |cols| ==> cols[i] == SpecColumn(table[i].header, Curated(table[i]))
  {
    seq(|table|, i requires 0 <= i < |table| => SpecColumn(table[i].header, Curated(table[i])))
  }

  predicate Distinct(cols: seq<SpecColumn>) {
    forall i, j :: 0 <= i < j < |cols| ==> cols[i].header != cols[j].header
  }

  predicate EndsInAge(cols: seq<SpecColumn>) { cols != [] && cols[|cols| - 1].header == "AGE" }

  /** Every curated cell shown is one of the kind's own columns. */
  predicate FromTable(table: seq<Column>, cols: seq<SpecColumn>) {
    forall c :: c in cols && c.cell.Curated? ==> c.cell.column in table
  }

  /** The last column configured under its header is the one shown there. */
  ghost predicate Shown(table: seq<Column>, users: seq<UserColumn>, cols: seq<SpecColumn>) {
    forall k :: 0 <= k < |users| && LastOfHeader(table, users, k) ==> Resolved(table, users[k]).value in cols
  }

  ghost predicate LastOfHeader(table: seq<Column>, users: seq<UserColumn>, k: int)
    requires 0 <= k < |users|
  {
    && Resolved(table, users[k]).Some?
    && forall m :: k < m < |users| && Resolved(table, users[m]).Some? ==>
         Resolved(table, users[m]).value.header != Resolved(table, users[k]).value.header
  }

  /** A column nobody configured keeps its curated cells. */
  ghost predicate Untouched(table: seq<Column>, users: seq<UserColumn>, cols: seq<SpecColumn>) {
    forall c :: c in table && (forall u :: u in users && Resolved(table, u).Some? ==>
                                 Resolved(table, u).value.header != c.header)
      ==> SpecColumn(c.header, Curated(c)) in cols
  }

  function Position(cols: seq<SpecColumn>, header: string, i: nat): (at: nat)
    requires i <= |cols|
    ensures i <= at <= |cols| && (at < |cols| ==> cols[at].header == header)
    ensures forall j :: i <= j < at ==> cols[j].header != header
    decreases |cols| - i
  {
    if i == |cols| || cols[i].header == header then i else Position(cols, header, i + 1)
  }

  /** One column in: in place of its header, else before a trailing AGE. */
  function Laid(cols: seq<SpecColumn>, c: SpecColumn): seq<SpecColumn> {
    var i := Position(cols, c.header, 0);
    if i < |cols| then cols[i := c]
    else
      var at := if EndsInAge(cols) then |cols| - 1 else |cols|;
      cols[..at] + [c] + cols[at..]
  }

  lemma LaidMembers(cols: seq<SpecColumn>, c: SpecColumn)
    ensures c in Laid(cols, c)
    ensures forall d :: d in Laid(cols, c) ==> d == c || d in cols
    ensures forall d :: d in cols && d.header != c.header ==> d in Laid(cols, c)
  {
    var i, laid := Position(cols, c.header, 0), Laid(cols, c);
    if i < |cols| {
      assert laid[i] == c;
      forall d | d in cols && d.header != c.header ensures d in laid {
        var j :| 0 <= j < |cols| && cols[j] == d;
        assert laid[j] == d;
      }
    } else {
      var at := if EndsInAge(cols) then |cols| - 1 else |cols|;
      assert laid[at] == c && cols == cols[..at] + cols[at..];
    }
  }

  lemma LaidKeepsShape(cols: seq<SpecColumn>, c: SpecColumn)
    ensures Distinct(cols) ==> Distinct(Laid(cols, c))
    ensures EndsInAge(cols) ==> EndsInAge(Laid(cols, c))
  {
  }

  // ----- the order of the headers ----------------------------------------------------------------

  function Headers(cols: seq<SpecColumn>): (hs: seq<string>)
    ensures |hs| == |cols| && forall i :: 0 <= i < |hs| ==> hs[i] == cols[i].header
  {
    seq(|cols|, i requires 0 <= i < |cols| => cols[i].header)
  }

  /** The configured headers that the table does not have, each once, as first configured. */
  function NewHeaders(table: seq<Column>, users: seq<UserColumn>): seq<string> {
    if users == [] then []
    else
      var front, last := NewHeaders(table, users[..|users| - 1]), Resolved(table, users[|users| - 1]);
      if last.None? || last.value.header in Headers(Plain(table)) + front then front else front + [last.value.header]
  }

  function WithoutAge(hs: seq<string>): seq<string> {
    if hs == [] then []
    else WithoutAge(hs[..|hs| - 1]) + if hs[|hs| - 1] == "AGE" then [] else [hs[|hs| - 1]]
  }

  predicate AgeLast(hs: seq<string>) { hs != [] && hs[|hs| - 1] == "AGE" }

  /** The table's headers in their order, then the new ones in theirs, then AGE if the table
      ends in it or it is new. */
  function Arranged(hs: seq<string>, more: seq<string>): seq<string> {
    (if AgeLast(hs) then hs[..|hs| - 1] else hs)
    + WithoutAge(more)
    + if AgeLast(hs) || "AGE" in more then ["AGE"] else []
  }

  lemma {:induction false} WithoutAgeMembers(hs: seq<string>)
    ensures "AGE" !in WithoutAge(hs) && forall h :: h in WithoutAge(hs) <==> h in hs && h != "AGE"
  {
    if hs != [] {
      WithoutAgeMembers(hs[..|hs| - 1]);
      assert hs == hs[..|hs| - 1] + [hs[|hs| - 1]];
    }
  }

  lemma ArrangedMembers(hs: seq<string>, more: seq<string>, h: string)
    ensures h in Arranged(hs, more) <==> h in hs || h in more
  {
    WithoutAgeMembers(more);
    assert AgeLast(hs) ==> hs == hs[..|hs| - 1] + ["AGE"];
  }

  /** Where a header goes that is not there yet. */
  function End(hs: seq<string>): (at: nat)
    ensures at <= |hs|
  {
    if AgeLast(hs) then |hs| - 1 else |hs|
  }

  lemma EndIsBeforeAge(hs: seq<string>, more: seq<string>)
    ensures var was := Arranged(hs, more);
            was[..End(was)] == (if AgeLast(hs) then hs[..|hs| - 1] else hs) + WithoutAge(more)
  {
    WithoutAgeMembers(more);
    hide WithoutAge;
    var kept := WithoutAge(more);
    assert kept != [] ==> kept[|kept| - 1] in kept;
  }

  lemma ArrangedOneMore(hs: seq<string>, more: seq<string>, h: string)
    requires h !in hs && h !in more
    ensures var was := Arranged(hs, more);
            Arranged(hs, more + [h]) == was[..End(was)] + [h] + was[End(was)..]
  {
    assert (more + [h])[..|more|] == more;
    EndIsBeforeAge(hs, more);
    EndIsBeforeAge(hs, more + [h]);
    hide End;
  }

  lemma LaidHeaders(cols: seq<SpecColumn>, c: SpecColumn)
    ensures var hs := Headers(cols);
            Headers(Laid(cols, c))
            == if c.header in hs then hs else hs[..End(hs)] + [c.header] + hs[End(hs)..]
  {
    var hs := Headers(cols);
    var i := Position(cols, c.header, 0);
    if c.header in hs {
      var j :| 0 <= j < |hs| && hs[j] == c.header;
      assert i <= j;
      assert Headers(Laid(cols, c)) == hs;
    } else {
      assert EndsInAge(cols) <==> AgeLast(hs);
      assert Headers(Laid(cols, c)) == hs[..End(hs)] + [c.header] + hs[End(hs)..];
    }
  }

  lemma OneMoreHeader(table: seq<Column>, users: seq<UserColumn>, u: UserColumn, cols: seq<SpecColumn>)
    requires Headers(cols) == Arranged(Headers(Plain(table)), NewHeaders(table, users))
    ensures var c := Resolved(table, u);
            Headers(if c.Some? then Laid(cols, c.value) else cols)
            == Arranged(Headers(Plain(table)), NewHeaders(table, users + [u]))
  {
    assert (users + [u])[..|users|] == users;
    var c, hs, more := Resolved(table, u), Headers(Plain(table)), NewHeaders(table, users);
    hide Resolved, Laid, Arranged;
    if c.Some? {
      var h := c.value.header;
      LaidHeaders(cols, c.value);
      ArrangedMembers(hs, more, h);
      if h !in hs && h !in more { ArrangedOneMore(hs, more, h); }
    }
  }

  /** Every column shown is a curated one of the table or a configured one. */
  ghost predicate Known(table: seq<Column>, users: seq<UserColumn>, cols: seq<SpecColumn>) {
    forall c :: c in cols ==> c in Plain(table) || exists u :: u in users && Resolved(table, u) == Some(c)
  }

  /** Nothing but these columns is shown, each in its place: the headers are arranged as above,
      and what stands under a header is the last column configured there, else the table's. */
  method OverlayColumns(table: seq<Column>, users: seq<UserColumn>) returns (cols: seq<SpecColumn>)
    ensures Headers(cols) == Arranged(Headers(Plain(table)), NewHeaders(table, users))
    ensures Known(table, users, cols)
    ensures FromTable(table, cols) && Shown(table, users, cols) && Untouched(table, users, cols)
    ensures Distinct(Plain(table)) ==> Distinct(cols)
    ensures EndsInAge(Plain(table)) ==> EndsInAge(cols)
  {
    hide Distinct, EndsInAge, Laid, Arranged, NewHeaders, Known;
    cols := Plain(table);
    NothingConfigured(table);
    for n := 0 to |users|
      invariant Headers(cols) == Arranged(Headers(Plain(table)), NewHeaders(table, users[..n]))
      invariant Known(table, users[..n], cols)
      invariant FromTable(table, cols) && Shown(table, users[..n], cols) && Untouched(table, users[..n], cols)
      invariant Distinct(Plain(table)) ==> Distinct(cols)
      invariant EndsInAge(Plain(table)) ==> EndsInAge(cols)
    {
      var c := Resolved(table, users[n]);
      OneMoreHeader(table, users[..n], users[n], cols);
      if c.Some? {
        LaidMembers(cols, c.value);
        LaidKeepsShape(cols, c.value);
        OneMore(table, users[..n], users[n], cols, Laid(cols, c.value));
        StillKnown(table, users[..n], users[n], cols, Laid(cols, c.value));
        cols := Laid(cols, c.value);
      } else {
        OneLess(table, users[..n], users[n], cols);
        StillKnown(table, users[..n], users[n], cols, cols);
      }
      assert users[..n + 1] == users[..n] + [users[n]];
    }
    assert users[..|users|] == users;
  }

  lemma NothingConfigured(table: seq<Column>)
    ensures Headers(Plain(table)) == Arranged(Headers(Plain(table)), NewHeaders(table, []))
    ensures Known(table, [], Plain(table))
  {
  }

  lemma StillKnown(table: seq<Column>, users: seq<UserColumn>, u: UserColumn, cols: seq<SpecColumn>,
                   laid: seq<SpecColumn>)
    requires Known(table, users, cols)
    requires forall d :: d in laid ==> Resolved(table, u) == Some(d) || d in cols
    ensures Known(table, users + [u], laid)
  {
    hide Resolved;
    var more := users + [u];
    forall c | c in laid && c !in Plain(table) ensures exists v :: v in more && Resolved(table, v) == Some(c) {
      if Resolved(table, u) == Some(c) {
        assert u in more;
      } else {
        var v :| v in users && Resolved(table, v) == Some(c);
        assert v in more;
      }
    }
  }

  lemma LastStays(table: seq<Column>, users: seq<UserColumn>, u: UserColumn, k: nat)
    requires k < |users| && LastOfHeader(table, users + [u], k)
    ensures LastOfHeader(table, users, k)
    ensures Resolved(table, u).Some? ==>
              Resolved(table, u).value.header != Resolved(table, users[k]).value.header
  {
    hide Resolved;
    var more := users + [u];
    assert more[k] == users[k] && more[|users|] == u;
    forall m | k < m < |users| && Resolved(table, users[m]).Some?
      ensures Resolved(table, users[m]).value.header != Resolved(table, users[k]).value.header
    {
      assert more[m] == users[m];
    }
  }

  lemma OneMore(table: seq<Column>, users: seq<UserColumn>, u: UserColumn, cols: seq<SpecColumn>, laid: seq<SpecColumn>)
    requires FromTable(table, cols) && Shown(table, users, cols) && Untouched(table, users, cols)
    requires Resolved(table, u).Some?
    requires var c := Resolved(table, u).value;
      && c in laid && (forall d :: d in laid ==> d == c || d in cols)
      && (forall d :: d in cols && d.header != c.header ==> d in laid)
    ensures FromTable(table, laid) && Shown(table, users + [u], laid) && Untouched(table, users + [u], laid)
  {
    ResolvedFromTable(table, u);
    hide Resolved;
    var more := users + [u];
    forall k | 0 <= k < |more| && LastOfHeader(table, more, k) ensures Resolved(table, more[k]).value in laid {
      if k < |users| { LastStays(table, users, u, k); }
    }
    hide LastOfHeader;
    forall c | c in table && forall v :: v in more && Resolved(table, v).Some? ==>
                               Resolved(table, v).value.header != c.header
      ensures SpecColumn(c.header, Curated(c)) in laid
    {
      assert u in more && forall v :: v in users ==> v in more;
    }
  }

  lemma ResolvedFromTable(table: seq<Column>, u: UserColumn)
    ensures var c := Resolved(table, u); c.Some? && c.value.cell.Curated? ==> c.value.cell.column in table
  {
  }

  lemma OneLess(table: seq<Column>, users: seq<UserColumn>, u: UserColumn, cols: seq<SpecColumn>)
    requires Shown(table, users, cols) && Untouched(table, users, cols) && Resolved(table, u).None?
    ensures Shown(table, users + [u], cols) && Untouched(table, users + [u], cols)
  {
    hide Resolved;
    var more := users + [u];
    forall k | 0 <= k < |more| && LastOfHeader(table, more, k) ensures Resolved(table, more[k]).value in cols {
      assert k < |users|;
      LastStays(table, users, u, k);
    }
    assert forall v :: v in users ==> v in more;
  }

  /** What stands under the configured headers: the last column configured there that the kind
      has. A curated one shows the cells of the table's column it points at; a time column is
      rendered against the clock, and any other as its text. */
  lemma ConfiguredIsShown(table: seq<Column>, users: seq<UserColumn>, cols: seq<SpecColumn>, k: nat)
    requires k < |users| && Shown(table, users, cols)
    requires forall m :: k < m < |users| ==> users[m].header != users[k].header
    ensures match users[k]
            case Builtin(header, pointer) =>
              (exists c :: c in table && c.header == pointer) ==>
                exists c :: c in table && c.header == pointer && SpecColumn(header, Curated(c)) in cols
            case Own(header, supported, at, text, time) =>
              supported ==> SpecColumn(header, if time then UserTime(at, text) else Other(text)) in cols
  {
  }

  /** A configured column that the kind does not have changes nothing. */
  lemma UnsupportedIsSkipped(table: seq<Column>, u: UserColumn)
    ensures Resolved(table, u).None?
       <==> if u.Builtin? then forall c :: c in table ==> c.header != u.pointer else !u.supported
  {
  }
}
