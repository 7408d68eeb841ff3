/** Repair of cursor-key escape sequences split at a read boundary (src/altscroll.rs). */
module AltScroll {
  import opened Wrappers

  datatype Code = Esc | Char(c: char) | Up | Down | Right | Left | Other(name: string)

  datatype Modifier = Shift | Control | Alt | Super | Hyper | Meta

  datatype Kind = Press | Repeat | Release

  /** `flags` stands for the rest of the terminal's key state. */
  datatype Key = Key(code: Code, modifiers: set<Modifier>, kind: Kind, flags: nat)

  function Fresh(code: Code): Key { Key(code, {}, Press, 0) }

  datatype State = Idle | Held(esc: Key) | Intro(esc: Key)

  predicate BareEsc(k: Key) { k.modifiers == {} && k.code.Esc? }

  predicate Introducer(k: Key) { k.modifiers == {} && (k.code == Char('[') || k.code == Char('O')) }

  function FinalByte(code: Code): Option<Code> {
    match code
    case Char('A') => Some(Up)
    case Char('B') => Some(Down)
    case Char('C') => Some(Right)
    case Char('D') => Some(Left)
    case _ => None
  }

  /** The cursor key that a final letter stands for; Shift alone may come with it. */
  function Cursor(k: Key): Option<Key> {
    var code := FinalByte(k.code);
    if k.modifiers <= {Shift} && code.Some? then Some(Fresh(code.value)) else None
  }

  /** The keys a flush releases. */
  function Released(s: State): (held: seq<Key>)
    ensures |held| <= 2 && (held == [] <==> s.Idle?)
  {
    match s
    case Idle => []
    case Held(esc) => [esc]
    case Intro(esc) => [esc, Fresh(Char('['))]
  }

  ghost predicate Sound(s: State) { s.Idle? || BareEsc(s.esc) }

  function Pushed(s: State, key: Key): (r: (State, seq<Key>))
    ensures Sound(s) ==> Sound(r.0)
  {
    match s
    case Idle => if BareEsc(key) then (Held(key), []) else (Idle, [key])
    case Held(esc) =>
      if Introducer(key) then (Intro(esc), [])
      else if BareEsc(key) then (Held(key), [esc])
      else (Idle, [esc, key])
    case Intro(esc) =>
      var cursor := Cursor(key);
      (Idle, if cursor.Some? then [cursor.value] else [esc, Fresh(Char('[')), key])
  }

  class Repair {
    var state: State

    ghost predicate Valid() reads this { Sound(state) }

    constructor ()
      ensures Valid() && state == Idle
    {
      state := Idle;
    }

    function Pending(): (r: bool)
      reads this
      ensures r <==> Released(state) != []
    {
      !state.Idle?
    }

    method Push(key: Key) returns (out: seq<Key>)
      requires Valid()
      modifies this
      ensures Valid() && (state, out) == Pushed(old(state), key)
      ensures out + Released(state) == Rewrite(Released(old(state)) + [key])
    {
      OneKey(state, key);
      var was := state;
      state := Idle;
      match was {
        case Idle =>
          if BareEsc(key) {
            state := Held(key);
            return [];
          }
          return [key];
        case Held(esc) =>
          if Introducer(key) {
            state := Intro(esc);
            return [];
          }
          if BareEsc(key) {
            state := Held(key);
            return [esc];
          }
          return [esc, key];
        case Intro(esc) =>
          var cursor := Cursor(key);
          if cursor.Some? { return [cursor.value]; }
          return [esc, Fresh(Char('[')), key];
      }
    }

    method Flush() returns (out: seq<Key>)
      requires Valid()
      modifies this
      ensures Valid() && state == Idle && out == Released(old(state))
    {
      out := Released(state);
      state := Idle;
    }
  }

  // ----- what the repair means ---------------------------------------------------------------

  /** Left to right over one run of keys: bare Esc, introducer and final letter become
      one cursor key, an introducer that no final letter follows becomes `[`, and
      everything else stays. */
  function Rewrite(keys: seq<Key>): seq<Key>
    decreases |keys|
  {
    if |keys| < 2 || !BareEsc(keys[0]) then
      if keys == [] then [] else [keys[0]] + Rewrite(keys[1..])
    else if Introducer(keys[1]) then
      if |keys| == 2 then [keys[0], Fresh(Char('['))]
      else
        var cursor := Cursor(keys[2]);
        (if cursor.Some? then [cursor.value] else [keys[0], Fresh(Char('[')), keys[2]]) + Rewrite(keys[3..])
    else if BareEsc(keys[1]) then [keys[0]] + Rewrite(keys[1..])
    else [keys[0], keys[1]] + Rewrite(keys[2..])
  }

  datatype Input = Typed(key: Key) | Timeout

  /** Everything dispatched for a stream of presses and flushes, and the final state. */
  function Dispatched(s: State, inputs: seq<Input>): (State, seq<Key>)
    decreases |inputs|
  {
    if inputs == [] then (s, [])
    else
      var (t, out) := if inputs[0].Timeout? then (Idle, Released(s)) else Pushed(s, inputs[0].key);
      var (u, more) := Dispatched(t, inputs[1..]);
      (u, out + more)
  }

  /** The keys before the first flush. */
  function Segment(inputs: seq<Input>): seq<Key> {
    if inputs == [] || inputs[0].Timeout? then [] else [inputs[0].key] + Segment(inputs[1..])
  }

  function AfterSegment(inputs: seq<Input>): (rest: seq<Input>)
    ensures |rest| <= |inputs| && (inputs != [] ==> |rest| < |inputs|)
  {
    if inputs == [] then [] else if inputs[0].Timeout? then inputs[1..] else AfterSegment(inputs[1..])
  }

  /** Each flush-delimited run, rewritten on its own. */
  function RewriteAll(inputs: seq<Input>): seq<Key>
    decreases |inputs|
  {
    if inputs == [] then [] else Rewrite(Segment(inputs)) + RewriteAll(AfterSegment(inputs))
  }

  lemma OneKey(s: State, key: Key)
    requires Sound(s)
    ensures var (t, out) := Pushed(s, key); out + Released(t) == Rewrite(Released(s) + [key])
  {
    PushThenRewrite(s, key, []);
    assert Released(s) + [key] + [] == Released(s) + [key];
    var (t, out) := Pushed(s, key);
    assert Released(t) + [] == Released(t);
    ReleasedIsRewritten(t);
  }

  lemma ReleasedIsRewritten(s: State)
    requires Sound(s)
    ensures Rewrite(Released(s)) == Released(s)
  {
  }

  /** One push: what it emits, then the rewriting of what it still holds and the rest. */
  lemma PushThenRewrite(s: State, key: Key, rest: seq<Key>)
    requires Sound(s)
    ensures var (t, out) := Pushed(s, key);
            Rewrite(Released(s) + [key] + rest) == out + Rewrite(Released(t) + rest)
  {
    hide Rewrite;
    match s {
      case Idle =>
        assert Released(s) + [key] + rest == [key] + rest && [] + rest == rest;
        if !BareEsc(key) { RewriteKey(key, rest); }
      case Held(esc) =>
        assert Released(s) + [key] + rest == [esc] + ([key] + rest) == [esc, key] + rest;
        if Introducer(key) {
          IntroducerIsBracket(esc, key, rest);
        } else if BareEsc(key) {
          RewriteEsc(esc, [key] + rest);
        } else {
          RewriteTwo(esc, key, rest);
          assert [] + rest == rest;
        }
      case Intro(esc) =>
        assert Released(s) + [key] + rest == [esc, Fresh(Char('[')), key] + rest && [] + rest == rest;
        RewriteIntro(esc, key, rest);
    }
  }

  lemma RewriteIntro(esc: Key, key: Key, rest: seq<Key>)
    requires BareEsc(esc)
    ensures Rewrite([esc, Fresh(Char('[')), key] + rest)
         == (if Cursor(key).Some? then [Cursor(key).value] else [esc, Fresh(Char('[')), key]) + Rewrite(rest)
  {
    assert ([esc, Fresh(Char('[')), key] + rest)[3..] == rest;
  }

  lemma IntroducerIsBracket(esc: Key, intro: Key, rest: seq<Key>)
    requires BareEsc(esc) && Introducer(intro)
    ensures Rewrite([esc, intro] + rest) == Rewrite([esc, Fresh(Char('['))] + rest)
  {
    var a, b := [esc, intro] + rest, [esc, Fresh(Char('['))] + rest;
    if rest != [] {
      assert a[3..] == rest[1..] && b[3..] == rest[1..];
    }
  }

  lemma {:induction false} StreamFrom(s: State, inputs: seq<Input>)
    requires Sound(s)
    ensures var (t, out) := Dispatched(s, inputs);
            && Sound(t)
            && out + Released(t) == Rewrite(Released(s) + Segment(inputs)) + RewriteAll(AfterSegment(inputs))
    decreases |inputs|
  {
    hide Rewrite, Pushed, Released;
    if inputs == [] {
      ReleasedIsRewritten(s);
      assert Released(s) + [] == Released(s);
    } else if inputs[0].Timeout? {
      var rest := inputs[1..];
      var (t, out) := Dispatched(Idle, rest);
      StreamFrom(Idle, rest);
      ReleasedIsRewritten(s);
      NothingReleased();
      assert Released(Idle) + Segment(rest) == Segment(rest);
      assert Released(s) + Segment(inputs) == Released(s);
      RewriteNothing();
      assert RewriteAll(rest) == Rewrite(Segment(rest)) + RewriteAll(AfterSegment(rest));
      assert Released(s) + out + Released(t) == Released(s) + (out + Released(t));
    } else {
      var key, rest := inputs[0].key, Segment(inputs[1..]);
      var (t, out) := Pushed(s, key);
      var (u, more) := Dispatched(t, inputs[1..]);
      PushThenRewrite(s, key, rest);
      StreamFrom(t, inputs[1..]);
      assert Released(s) + [key] + rest == Released(s) + Segment(inputs);
      var after := RewriteAll(AfterSegment(inputs));
      assert out + more + Released(u) == out + (more + Released(u));
      assert out + (Rewrite(Released(t) + rest) + after) == out + Rewrite(Released(t) + rest) + after;
    }
  }

  lemma NothingReleased()
    ensures Released(Idle) == []
  {
  }

  lemma RewriteNothing()
    ensures Rewrite([]) == [] && RewriteAll([]) == []
  {
  }

  /** For every stream of presses and flushes, what was dispatched and then what is
      still held is the rewriting of each flush-delimited run, in order. */
  lemma StreamIsRewritten(inputs: seq<Input>)
    ensures var (t, out) := Dispatched(Idle, inputs);
            out + Released(t) == RewriteAll(inputs) && |Released(t)| <= 2
  {
    StreamFrom(Idle, inputs);
    assert Released(Idle) + Segment(inputs) == Segment(inputs);
    if inputs == [] { RewriteNothing(); }
  }

  // ----- what the rewriting means ---------------------------------------------------------------

  /** How keys of the input reach the output. */
  datatype Piece =
    | Kept(key: Key)
    | Bracketed(intro: Key)
    | Joined(esc: Key, intro: Key, last: Key)

  ghost predicate Proper(p: Piece) {
    match p
    case Kept(key) => true
    case Bracketed(intro) => Introducer(intro)
    case Joined(esc, intro, last) => BareEsc(esc) && Introducer(intro) && Cursor(last).Some?
  }

  function Source(p: Piece): seq<Key> {
    match p
    case Kept(key) => [key]
    case Bracketed(intro) => [intro]
    case Joined(esc, intro, last) => [esc, intro, last]
  }

  function Shown(p: Piece): Key
    requires Proper(p)
  {
    match p
    case Kept(key) => key
    case Bracketed(intro) => Fresh(Char('['))
    case Joined(esc, intro, last) => Cursor(last).value
  }

  function AllSource(pieces: seq<Piece>): seq<Key> {
    if pieces == [] then [] else Source(pieces[0]) + AllSource(pieces[1..])
  }

  ghost function AllShown(pieces: seq<Piece>): seq<Key>
    requires forall p :: p in pieces ==> Proper(p)
  {
    if pieces == [] then [] else [Shown(pieces[0])] + AllShown(pieces[1..])
  }

  lemma Prepend(p: Piece, more: seq<Piece>)
    requires Proper(p) && forall q :: q in more ==> Proper(q)
    ensures forall q :: q in [p] + more ==> Proper(q)
    ensures AllSource([p] + more) == Source(p) + AllSource(more)
    ensures AllShown([p] + more) == [Shown(p)] + AllShown(more)
  {
    assert ([p] + more)[1..] == more;
  }

  ghost predicate Explains(pieces: seq<Piece>, keys: seq<Key>) {
    (forall p :: p in pieces ==> Proper(p)) && AllSource(pieces) == keys && AllShown(pieces) == Rewrite(keys)
  }

  /** The input with `first` in front is explained when `first` is how its start is shown. */
  lemma {:induction false} ExplainFirst(first: seq<Piece>, more: seq<Piece>, keys: seq<Key>, n: nat)
    requires n <= |keys| && Explains(more, keys[n..]) && forall p :: p in first ==> Proper(p)
    requires AllSource(first) == keys[..n] && AllShown(first) + Rewrite(keys[n..]) == Rewrite(keys)
    ensures Explains(first + more, keys)
  {
    hide Rewrite;
    Together(first, more);
    assert keys == keys[..n] + keys[n..];
  }

  lemma {:induction false} Together(a: seq<Piece>, b: seq<Piece>)
    requires (forall p :: p in a ==> Proper(p)) && forall p :: p in b ==> Proper(p)
    ensures forall p :: p in a + b ==> Proper(p)
    ensures AllSource(a + b) == AllSource(a) + AllSource(b)
    ensures AllShown(a + b) == AllShown(a) + AllShown(b)
  {
    hide AllSource, AllShown, Source, Shown, Proper;
    if a == [] {
      NothingShown();
      assert a + b == b;
    } else {
      var p, rest := a[0], a[1..];
      Together(rest, b);
      Prepend(p, rest);
      Prepend(p, rest + b);
      assert a == [p] + rest && a + b == [p] + (rest + b);
      assert AllSource(a + b) == Source(p) + AllSource(rest) + AllSource(b);
      assert AllShown(a + b) == [Shown(p)] + AllShown(rest) + AllShown(b);
    }
  }

  lemma NothingShown()
    ensures AllSource([]) == [] && AllShown([]) == []
  {
  }

  lemma ShowOne(p: Piece)
    requires Proper(p)
    ensures AllSource([p]) == Source(p) && AllShown([p]) == [Shown(p)]
  {
  }

  lemma ShowTwo(p: Piece, q: Piece)
    requires Proper(p) && Proper(q)
    ensures AllSource([p, q]) == Source(p) + Source(q) && AllShown([p, q]) == [Shown(p), Shown(q)]
  {
    assert [p, q] == [p] + [q];
    Prepend(p, [q]);
    ShowOne(q);
  }

  /** Conservation: the output is the input with some whole sequences joined and some
      introducers shown as `[`; nothing else is lost, added or reordered. */
  lemma {:induction false} NothingElseChanges(keys: seq<Key>) returns (pieces: seq<Piece>)
    ensures Explains(pieces, keys)
    decreases |keys|
  {
    if keys == [] { return []; }
    hide AllSource, AllShown, Explains;
    var first: seq<Piece>, n;
    if |keys| < 2 || !BareEsc(keys[0]) || BareEsc(keys[1]) {
      first, n := [Kept(keys[0])], 1;
      ShowOne(first[0]);
    } else if !Introducer(keys[1]) {
      first, n := [Kept(keys[0]), Kept(keys[1])], 2;
      ShowTwo(first[0], first[1]);
    } else if |keys| == 2 {
      first, n := [Kept(keys[0]), Bracketed(keys[1])], 2;
      ShowTwo(first[0], first[1]);
    } else if Cursor(keys[2]).Some? {
      first, n := [Joined(keys[0], keys[1], keys[2])], 3;
      ShowOne(first[0]);
    } else {
      first, n := [Kept(keys[0]), Bracketed(keys[1]), Kept(keys[2])], 3;
      ShowTwo(first[1], first[2]);
      Prepend(first[0], first[1..]);
      assert first == [first[0]] + first[1..] && first[1..] == [first[1], first[2]];
    }
    var more := NothingElseChanges(keys[n..]);
    ExplainFirst(first, more, keys, n);
    pieces := first + more;
  }

  /** Rewriting a second time changes nothing. */
  lemma {:induction false} RewriteIsIdempotent(keys: seq<Key>)
    ensures Rewrite(Rewrite(keys)) == Rewrite(keys)
    decreases |keys|
  {
    if keys == [] {
    } else if |keys| >= 2 && BareEsc(keys[0]) && BareEsc(keys[1]) {
      RewriteIsIdempotent(keys[1..]);
      EscBefore(keys[0], keys[1..]);
    } else if |keys| < 2 || !BareEsc(keys[0]) {
      RewriteIsIdempotent(keys[1..]);
      var out := [keys[0]] + Rewrite(keys[1..]);
      assert out[1..] == Rewrite(keys[1..]);
    } else if !Introducer(keys[1]) {
      RewriteIsIdempotent(keys[2..]);
      var out := [keys[0], keys[1]] + Rewrite(keys[2..]);
      assert out[2..] == Rewrite(keys[2..]);
    } else if |keys| > 2 {
      RewriteIsIdempotent(keys[3..]);
      IntroAgain(keys);
    }
  }

  lemma IntroAgain(keys: seq<Key>)
    requires |keys| > 2 && BareEsc(keys[0]) && Introducer(keys[1])
    requires Rewrite(Rewrite(keys[3..])) == Rewrite(keys[3..])
    ensures Rewrite(Rewrite(keys)) == Rewrite(keys)
  {
    var cursor, more := Cursor(keys[2]), Rewrite(keys[3..]);
    if cursor.Some? {
      assert ([cursor.value] + more)[1..] == more;
    } else {
      assert ([keys[0], Fresh(Char('[')), keys[2]] + more)[3..] == more;
    }
  }

  /** A released Esc in front of an output that starts with an Esc or a cursor key. */
  lemma EscBefore(esc: Key, keys: seq<Key>)
    requires BareEsc(esc) && keys != [] && BareEsc(keys[0])
    requires Rewrite(Rewrite(keys)) == Rewrite(keys)
    ensures Rewrite([esc] + Rewrite(keys)) == [esc] + Rewrite(keys)
  {
    var out := Rewrite(keys);
    EscOrCursor(keys);
    hide Rewrite;
    if BareEsc(out[0]) {
      RewriteEsc(esc, out);
    } else {
      var rest := out[1..];
      assert out == [out[0]] + rest && [esc] + out == [esc, out[0]] + rest;
      RewriteKey(out[0], rest);
      assert ([out[0]] + Rewrite(rest))[1..] == Rewrite(rest);
      RewriteTwo(esc, out[0], rest);
    }
  }

  lemma EscOrCursor(keys: seq<Key>)
    requires keys != [] && BareEsc(keys[0])
    ensures var out := Rewrite(keys);
            out != [] && (BareEsc(out[0]) || (!out[0].code.Esc? && !Introducer(out[0])))
  {
  }

  lemma RewriteEsc(esc: Key, out: seq<Key>)
    requires BareEsc(esc) && out != [] && BareEsc(out[0])
    ensures Rewrite([esc] + out) == [esc] + Rewrite(out)
  {
    assert ([esc] + out)[1..] == out;
  }

  lemma RewriteKey(k: Key, rest: seq<Key>)
    requires !BareEsc(k)
    ensures Rewrite([k] + rest) == [k] + Rewrite(rest)
  {
    assert ([k] + rest)[1..] == rest;
  }

  lemma RewriteTwo(esc: Key, k: Key, rest: seq<Key>)
    requires BareEsc(esc) && !BareEsc(k) && !Introducer(k)
    ensures Rewrite([esc, k] + rest) == [esc, k] + Rewrite(rest)
  {
    assert ([esc, k] + rest)[2..] == rest;
  }

  /** The keys that come out for Esc, an introducer and one more key: the cursor key of the
      letter A, B, C or D, with or without Shift, and else all three with the introducer as a
      bracket. */
  lemma SplitCursorKeys(esc: Key, intro: Key, last: Key, rest: seq<Key>)
    requires esc.code == Esc && esc.modifiers == {} && intro.modifiers == {}
    requires intro.code == Char('[') || intro.code == Char('O')
    ensures var out := Rewrite([esc, intro, last] + rest);
      if last.modifiers - {Shift} != {} || last.code !in {Char('A'), Char('B'), Char('C'), Char('D')} then
        out == [esc, Key(Char('['), {}, Press, 0), last] + Rewrite(rest)
      else
        && (last.code == Char('A') ==> out == [Key(Up, {}, Press, 0)] + Rewrite(rest))
        && (last.code == Char('B') ==> out == [Key(Down, {}, Press, 0)] + Rewrite(rest))
        && (last.code == Char('C') ==> out == [Key(Right, {}, Press, 0)] + Rewrite(rest))
        && (last.code == Char('D') ==> out == [Key(Left, {}, Press, 0)] + Rewrite(rest))
  {
    var keys := [esc, intro, last] + rest;
    assert keys[0] == esc && keys[1] == intro && keys[2] == last && keys[3..] == rest;
  }
}
