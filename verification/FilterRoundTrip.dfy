/** A printer for the whole filter grammar, and the proof that parsing what it prints gives
    exactly the terms, selectors and error that were written. */
module FilterRoundTrip {
  import opened Wrappers
  import opened Text
  import opened Filter

  datatype Flag = OnLabels | OnFields

  /** How a value is written: as it stands, or between quotes. */
  datatype Style = Bare | Single | Double

  /** How a text matcher is written: `"text"`, `^text`, `/source/`, `~text`, `a|b`, `text`. */
  datatype Pat =
    | Quote(text: string)
    | Head(text: string)
    | Expr(source: string)
    | Loose(text: string)
    | OneOf(words: seq<string>)
    | Word(text: string)

  /** What can stand in a line: text, comparisons, selectors in all their spellings, `&&` and
      groups; and the selectors and comparisons that are not finished. */
  datatype Piece =
    | Text(negate: bool, onLabels: bool, pat: Pat)
    | Compare(key: string, op: Op, raw: string, style: Style)
    | NoValue(key: string, op: Op)
    | Selector(flag: Flag, sel: string, style: Style)
    | Attached(flag: Flag, sel: string)
    | InSet(key: string, negate: bool, values: string)
    | Alone(flag: Flag)
    | HalfSet(key: string, negate: bool)
    | And
    | Group(negate: bool, body: seq<Line>)

  /** One side of `||`. */
  datatype Line = Line(pieces: seq<Piece>)

  // ----- printing ------------------------------------------------------------

  function InQuotes(s: string): string { "\"" + s + "\"" }

  function Dressed(s: string, style: Style): string {
    match style
    case Bare => s
    case Single => "'" + s + "'"
    case Double => InQuotes(s)
  }

  function OpText(op: Op): string {
    match op
    case Eq => "="
    case Ne => "!="
    case Gt => ">"
    case Ge => ">="
    case Lt => "<"
    case Le => "<="
  }

  function FlagText(flag: Flag): string { if flag.OnLabels? then "-l" else "-f" }

  function SetText(negate: bool): string { if negate then "notin" else "in" }

  function Bars(words: seq<string>): string
    requires words != []
  {
    if |words| == 1 then words[0] else words[0] + "|" + Bars(words[1..])
  }

  function PatText(pat: Pat): string {
    match pat
    case Quote(text) => InQuotes(text)
    case Head(text) => "^" + text
    case Expr(source) => "/" + source + "/"
    case Loose(text) => "~" + text
    case OneOf(words) => if words == [] then "" else Bars(words)
    case Word(text) => text
  }

  function Markers(negate: bool, onLabels: bool): string {
    (if negate then "!" else "") + if onLabels then "label:" else ""
  }

  function TextWord(negate: bool, onLabels: bool, pat: Pat): string {
    Markers(negate, onLabels) + PatText(pat)
  }

  function CompareWord(key: string, op: Op, raw: string, style: Style): string {
    key + OpText(op) + Dressed(raw, style)
  }

  function GroupWord(negate: bool, text: string): string { (if negate then "!(" else "(") + text + ")" }

  function PieceWords(p: Piece): (ws: seq<string>)
    ensures ws != []
    decreases p
  {
    match p
    case Text(negate, onLabels, pat) => [TextWord(negate, onLabels, pat)]
    case Compare(key, op, raw, style) => [CompareWord(key, op, raw, style)]
    case NoValue(key, op) => [key + OpText(op)]
    case Selector(flag, sel, style) => [FlagText(flag), Dressed(sel, style)]
    case Attached(flag, sel) => [FlagText(flag) + sel]
    case InSet(key, negate, values) => ["-l", key, SetText(negate), "(" + values + ")"]
    case Alone(flag) => [FlagText(flag)]
    case HalfSet(key, negate) => ["-l", key, SetText(negate)]
    case And => ["&&"]
    case Group(negate, body) => [GroupWord(negate, PrintBody(body))]
  }

  function LineWords(ps: seq<Piece>): seq<string>
    decreases ps
  {
    if ps == [] then [] else PieceWords(ps[0]) + LineWords(ps[1..])
  }

  function BodyWords(b: seq<Line>): seq<string>
    decreases b, 0
  {
    if b == [] then []
    else LineWords(b[0].pieces) + if |b| == 1 then [] else ["||"] + BodyWords(b[1..])
  }

  function Spaced(ws: seq<string>): string {
    if ws == [] then "" else ws[0] + if |ws| == 1 then "" else " " + Spaced(ws[1..])
  }

  function PrintBody(b: seq<Line>): string
    decreases b, 1
  {
    Spaced(BodyWords(b))
  }

  // ----- what a printed filter means ------------------------------------------

  /** What one piece gives the filter. */
  datatype Effect = Adds(term: Term) | AddsLabel(sel: string) | AddsField(sel: string) | Fails(error: Error) | Silent

  function PatMeaning(env: Env, pat: Pat): Result<Pattern, Error> {
    match pat
    case Quote(text) => if text == "" then Err(EmptyQuotes) else Ok(Literal(text))
    case Head(text) =>
      if text == "" then Err(EmptyPrefix) else if env.compiles("^" + text) then Ok(Prefix(text)) else Err(BadRegex)
    case Expr(source) =>
      if source == "" then Err(EmptyRegex) else if env.compiles(source) then Ok(Regex(source)) else Err(BadRegex)
    case Loose(text) => if text == "" then Err(EmptyFuzzy) else Ok(Fuzzy(text))
    case OneOf(words) => if env.compiles(PatText(pat)) then Ok(Either(words)) else Err(BadRegex)
    case Word(text) => Ok(Literal(text))
  }

  function TextMeaning(env: Env, negate: bool, onLabels: bool, pat: Pat): Effect {
    var p := PatMeaning(env, pat);
    if p.Err? then Fails(p.error)
    else if onLabels then (if pat.Loose? then Fails(FuzzyLabel) else Adds(LabelTerm(negate, p.value)))
    else Adds(TextTerm(negate, p.value))
  }

  function SelectorMeaning(flag: Flag, sel: string): Effect {
    if flag.OnLabels? then (if sel == "" then Fails(InvalidSelector) else AddsLabel(sel))
    else if '=' in sel then AddsField(sel) else Fails(InvalidSelector)
  }

  /** The effect of piece `k` of a line at this depth. */
  function PieceMeaning(env: Env, ps: seq<Piece>, k: nat, d: nat): Effect
    requires k < |ps|
    decreases ps, 0
  {
    match ps[k]
    case Text(negate, onLabels, pat) => TextMeaning(env, negate, onLabels, pat)
    case Compare(key, op, raw, _) =>
      var v := env.typed(key, raw);
      if v.Ok? then Adds(Cmp(Lower(key), op, v.value)) else Fails(v.error)
    case NoValue(_, _) => Fails(MissingValue)
    case Selector(flag, sel, _) => SelectorMeaning(flag, sel)
    case Attached(flag, sel) => if flag.OnLabels? then AddsLabel(sel) else AddsField(sel)
    case InSet(key, negate, values) => AddsLabel(key + (if negate then " notin (" else " in (") + values + ")")
    case Alone(_) => Fails(NoSelector)
    case HalfSet(_, _) => Fails(NoSelectorSet)
    case And => if k == 0 || k + 1 == |ps| || ps[k + 1].And? then Fails(DanglingAnd) else Silent
    case Group(negate, body) => GroupMeaning(negate, BodyMeaning(env, body, d + 1))
  }

  function GroupMeaning(negate: bool, s: Structured): Effect {
    if s.labels.Some? || s.fields.Some? then Fails(SelectorInGroup)
    else if s.error.Some? then Fails(s.error.value)
    else if s.terms == [] then Fails(EmptyGroup)
    else Adds(if negate then Not(s.terms) else All(s.terms))
  }

  function LineEffects(env: Env, ps: seq<Piece>, d: nat): (es: seq<Effect>)
    ensures |es| == |ps| && forall k :: 0 <= k < |ps| ==> es[k] == PieceMeaning(env, ps, k, d)
    decreases ps, 1
  {
    seq(|ps|, k requires 0 <= k < |ps| => PieceMeaning(env, ps, k, d))
  }

  function TermsOf(es: seq<Effect>): seq<Term> {
    if es == [] then [] else (if es[0].Adds? then [es[0].term] else []) + TermsOf(es[1..])
  }

  function LabelsOf(es: seq<Effect>): seq<string> {
    if es == [] then [] else (if es[0].AddsLabel? then [es[0].sel] else []) + LabelsOf(es[1..])
  }

  function FieldsOf(es: seq<Effect>): seq<string> {
    if es == [] then [] else (if es[0].AddsField? then [es[0].sel] else []) + FieldsOf(es[1..])
  }

  function FirstError(es: seq<Effect>): Option<Error> {
    if es == [] then None else if es[0].Fails? then Some(es[0].error) else FirstError(es[1..])
  }

  /** Selectors written one after another, with commas between them; none if there are none. */
  function Commas(sels: seq<string>): Option<string> {
    if sels == [] then None
    else
      var n := |sels| - 1;
      if n == 0 then Some(sels[0]) else Some(Commas(sels[..n]).value + "," + sels[n])
  }

  /** A line gives its terms, its label selectors, its field selectors and its first error. */
  function LineMeaning(env: Env, ps: seq<Piece>, d: nat): Structured
    decreases ps, 2
  {
    var es := LineEffects(env, ps, d);
    Structured(TermsOf(es), Commas(LabelsOf(es)), Commas(FieldsOf(es)), FirstError(es))
  }

  /** What is wrong with one side of `||`. */
  function SideError(env: Env, ps: seq<Piece>, d: nat): Option<Error>
    decreases ps, 3
  {
    if ps == [] then Some(EmptyBranch)
    else if d > MAX_DEPTH then Some(TooDeep)
    else
      var s := LineMeaning(env, ps, d);
      if s.labels.Some? || s.fields.Some? then Some(SelectorInOr) else s.error
  }

  /** The sides from the first on: the first error, else each side's terms. */
  function SidesMeaning(env: Env, b: seq<Line>, d: nat): Result<seq<Term>, Error>
    decreases b, 0
  {
    if b == [] then Ok([])
    else
      var e := SideError(env, b[0].pieces, d);
      var rest := SidesMeaning(env, b[1..], d);
      if e.Some? then Err(e.value)
      else if rest.Err? then rest
      else Ok([All(LineMeaning(env, b[0].pieces, d).terms)] + rest.value)
  }

  function BodyMeaning(env: Env, b: seq<Line>, d: nat): Structured
    decreases b, 1
  {
    if d > MAX_DEPTH then Failed(TooDeep)
    else if b == [] then Structured([], None, None, None)
    else if |b| == 1 then LineMeaning(env, b[0].pieces, d)
    else
      var sides := SidesMeaning(env, b, d + 1);
      if sides.Err? then Failed(sides.error) else Structured([Any(sides.value)], None, None, None)
  }

  // ----- what can be written down -----------------------------------------------

  predicate IsKey(key: string) {
    key != "" && KeyStart(key[0]) && forall c :: c in key ==> KeyChar(c)
  }

  predicate PlainChar(c: char) {
    !IsWhitespace(c) && c != '/' && c != '\'' && c != '"' && c != '(' && c != ')' && c != '&' && c != '|'
  }

  /** No comparison could be read into it. */
  predicate WordChar(c: char) { PlainChar(c) && c != '=' && c != '<' && c != '>' && c != '!' }

  predicate WordText(s: string) { s != "" && forall c :: c in s ==> WordChar(c) }

  /** No marker could be read into its start. */
  predicate PlainStart(s: string) {
    s != "" && s[0] != '^' && s[0] != '~' && s != "-l" && s != "-f" && !("label:" <= s)
  }

  /** Unquoted selector text; a slash stands inside a name (`app.kubernetes.io/name`). */
  predicate BareText(s: string) { forall k: nat :: k < |s| ==> BareAt(s, k) }

  predicate BareAt(s: string, k: nat)
    requires k < |s|
  {
    PlainChar(s[k]) || (s[k] == '/' && k > 0 && KeyChar(s[k - 1]))
  }

  /** A quoted value does not hold its own quote. */
  predicate Wearable(s: string, style: Style) {
    (style.Single? ==> '\'' !in s) && (style.Double? ==> '"' !in s)
  }

  /** An unquoted value, which no operator can swallow. */
  predicate BareValue(s: string) { s != "" && s[0] != '=' && BareText(s) }

  predicate BareSelector(s: string) { s != "" && s[0] != '-' && BareText(s) }

  predicate SourceChar(c: char) { c != '/' && c != '\\' && c != '[' && c != ']' }

  predicate WritablePat(pat: Pat) {
    match pat
    case Quote(text) => '"' !in text
    case Head(text) => forall c :: c in text ==> PlainChar(c)
    case Expr(source) => forall c :: c in source ==> SourceChar(c)
    case Loose(text) => forall c :: c in text ==> PlainChar(c)
    case OneOf(words) =>
      && |words| >= 2 && PlainStart(words[0])
      && forall w :: w in words ==> WordText(w)
    case Word(text) => PlainStart(text) && WordText(text)
  }

  predicate Writable(p: Piece)
    decreases p
  {
    match p
    case Text(_, _, pat) => WritablePat(pat)
    case Compare(key, _, raw, style) => IsKey(key) && Wearable(raw, style) && (style.Bare? ==> BareValue(raw))
    case NoValue(key, _) => IsKey(key)
    case Selector(_, sel, style) => Wearable(sel, style) && (style.Bare? ==> BareSelector(sel))
    case Attached(flag, sel) => '=' in sel && BareText(FlagText(flag) + sel)
    case InSet(key, _, values) => BareSelector(key) && forall c :: c in values ==> PlainChar(c) || c == ' '
    case Alone(_) => true
    case HalfSet(key, _) => BareSelector(key)
    case And => true
    case Group(_, body) => WritableBody(body)
  }

  /** The next piece starts with a dash. */
  predicate Dashed(p: Piece) { p.Selector? || p.Attached? || p.InSet? || p.Alone? || p.HalfSet? }

  /** What may follow a piece without being read into it. */
  predicate Follows(p: Piece, next: Piece) {
    && (p.Alone? ==> Dashed(next) || next.And?)
    && (p.HalfSet? ==> !(next.Group? && !next.negate))
    && (p.Selector? && p.flag.OnLabels? ==>
          next != Text(false, false, Word("in")) && next != Text(false, false, Word("notin")))
  }

  predicate WritableLine(ps: seq<Piece>)
    decreases ps
  {
    && (forall p :: p in ps ==> Writable(p))
    && forall k :: 0 < k < |ps| ==> Follows(ps[k - 1], ps[k])
  }

  predicate WritableBody(b: seq<Line>)
    decreases b
  {
    b != [] && forall x :: x in b ==> WritableLine(x.pieces)
  }

  // ----- scanning printed text ---------------------------------------------------

  ghost predicate Occurs(input: string, i: nat, x: string) {
    i + |x| <= |input| && input[i..i + |x|] == x
  }

  lemma OccursSplit(input: string, i: nat, a: string, b: string)
    requires Occurs(input, i, a + b)
    ensures Occurs(input, i, a) && Occurs(input, i + |a|, b)
  {
    var x := input[i..i + |a + b|];
    assert input[i..i + |a|] == x[..|a|] == a;
    assert input[i + |a|..i + |a| + |b|] == x[|a|..] == b;
  }

  /** Scanning over `x` only appends it to the token being collected. */
  ghost predicate Absorbs(input: string, i: nat, st: Tok, x: string)
    requires i + |x| <= |input|
  {
    Scan(input, i, st) == Scan(input, i + |x|, st.Put(x))
  }

  lemma ScanStep(input: string, i: nat, st: Tok)
    requires i < |input|
    ensures Advance(input, i, st).Ok? ==>
              Scan(input, i, st) == Scan(input, Advance(input, i, st).value.0, Advance(input, i, st).value.1)
  {
  }

  lemma AbsorbJoin(input: string, i: nat, st: Tok, a: string, b: string)
    requires i + |a| + |b| <= |input|
    requires Absorbs(input, i, st, a) && Absorbs(input, i + |a|, st.Put(a), b)
    ensures Absorbs(input, i, st, a + b)
  {
    hide Scan;
    assert st.Put(a).Put(b) == st.Put(a + b);
  }

  lemma AfterKeyCharNoPattern(before: string)
    requires before != "" && KeyChar(before[|before| - 1])
    ensures !AtPatternStart(before)
  {
    var n := |before| - 6;
    if n >= 0 {
      assert before[n..][5] == before[|before| - 1];
      assert "label:"[5] == ':';
    }
  }

  /** Characters that the tokenizer takes as they stand. */
  predicate Taken(input: string, i: nat, inside: bool)
    requires i < |input|
  {
    var c := input[i];
    || PlainChar(c)
    || (c == '/' && i > 0 && KeyChar(input[i - 1]))
    || (c == '|' && (i + 1 == |input| || input[i + 1] != '|'))
    || (inside && (c == ' ' || c == '&' || c == '|'))
  }

  lemma ScanTaken(input: string, i: nat, st: Tok)
    requires i < |input| && st.quote.None? && Taken(input, i, st.depth > 0)
    ensures Scan(input, i, st) == Scan(input, i + 1, st.Put([input[i]]))
  {
    hide Scan, AtPatternStart, RegexEndFrom;
    if input[i] == '/' { AfterKeyCharNoPattern(input[..i]); }
    ScanStep(input, i, st);
  }

  lemma FirstChar(input: string, i: nat, x: string)
    requires x != "" && Occurs(input, i, x)
    ensures i < |input| && input[i] == x[0] && Occurs(input, i + 1, x[1..]) && [x[0]] + x[1..] == x
  {
    assert [x[0]] + x[1..] == x;
    OccursSplit(input, i, [x[0]], x[1..]);
    assert input[i] == input[i..i + 1][0];
  }

  lemma {:induction false} ScanRun(input: string, i: nat, st: Tok, x: string, inside: bool)
    requires Occurs(input, i, x) && st.quote.None? && inside == (st.depth > 0)
    requires forall k: nat :: i <= k < i + |x| ==> Taken(input, k, inside)
    ensures Absorbs(input, i, st, x)
    decreases |x|
  {
    hide Scan, Taken;
    if x == "" {
      assert st.Put(x) == st;
    } else {
      FirstChar(input, i, x);
      ScanTaken(input, i, st);
      ScanRun(input, i + 1, st.Put([x[0]]), x[1..], inside);
      AbsorbJoin(input, i, st, [x[0]], x[1..]);
    }
  }

  lemma OccursAt(input: string, i: nat, x: string)
    requires Occurs(input, i, x)
    ensures forall k :: i <= k < i + |x| ==> input[k] == x[k - i]
  {
    assert forall k :: i <= k < i + |x| ==> input[k] == input[i..i + |x|][k - i];
  }

  lemma ScanPlain(input: string, i: nat, st: Tok, x: string)
    requires Occurs(input, i, x) && st.quote.None? && forall c :: c in x ==> PlainChar(c)
    ensures Absorbs(input, i, st, x)
  {
    hide Scan;
    OccursAt(input, i, x);
    ScanRun(input, i, st, x, st.depth > 0);
  }

  lemma ScanBare(input: string, i: nat, st: Tok, x: string)
    requires Occurs(input, i, x) && st.quote.None? && BareText(x)
    ensures Absorbs(input, i, st, x)
  {
    hide Scan, PlainChar, KeyChar;
    OccursAt(input, i, x);
    var inside := st.depth > 0;
    forall k: nat | i <= k < i + |x| ensures Taken(input, k, inside) {
      var j := k - i;
      assert BareAt(x, j) && input[k] == x[j] && (j > 0 ==> input[k - 1] == x[j - 1]);
    }
    ScanRun(input, i, st, x, inside);
  }

  lemma KeyIsBare(key: string)
    requires IsKey(key)
    ensures BareText(key)
  {
    forall k: nat | k < |key| ensures BareAt(key, k) {
      assert key[k] in key;
      if k > 0 { assert key[k - 1] in key; }
    }
  }

  lemma {:induction false} ScanInQuotes(input: string, i: nat, st: Tok, x: string)
    requires Occurs(input, i, x) && st.quote.Some? && st.quote.value !in x
    ensures Absorbs(input, i, st, x)
    decreases |x|
  {
    hide Scan;
    if x == "" {
      assert st.Put(x) == st;
    } else {
      assert [x[0]] + x[1..] == x;
      OccursSplit(input, i, [x[0]], x[1..]);
      assert input[i] == input[i..i + 1][0] == x[0];
      ScanStep(input, i, st);
      ScanInQuotes(input, i + 1, st.Put([x[0]]), x[1..]);
      AbsorbJoin(input, i, st, [x[0]], x[1..]);
    }
  }

  lemma ScanQuoted(input: string, i: nat, st: Tok, x: string, q: char)
    requires q == '"' || q == '\''
    requires Occurs(input, i, [q] + x + [q]) && st.quote.None? && q !in x
    ensures Absorbs(input, i, st, [q] + x + [q])
  {
    hide Scan;
    OccursSplit(input, i, [q] + x, [q]);
    OccursSplit(input, i, [q], x);
    var j := i + 1 + |x|;
    assert input[i] == input[i..i + 1][0] == q;
    assert input[j] == input[j..j + 1][0] == q;
    var open := st.Put([q]).(quote := Some(q));
    ScanStep(input, i, st);
    assert Scan(input, i, st) == Scan(input, i + 1, open);
    ScanInQuotes(input, i + 1, open, x);
    var full := open.Put(x);
    ScanStep(input, j, full);
    assert Scan(input, j, full) == Scan(input, j + 1, full.Put([q]).(quote := None));
    assert full.Put([q]).(quote := None) == st.Put([q] + x + [q]);
  }

  lemma ScanDressed(input: string, i: nat, st: Tok, x: string, style: Style)
    requires Wearable(x, style) && (style.Bare? ==> BareText(x))
    requires Occurs(input, i, Dressed(x, style)) && st.quote.None?
    ensures Absorbs(input, i, st, Dressed(x, style))
  {
    hide Scan;
    match style
    case Bare => ScanBare(input, i, st, x);
    case Single =>
      assert Dressed(x, style) == ['\''] + x + ['\''];
      ScanQuoted(input, i, st, x, '\'');
    case Double =>
      assert Dressed(x, style) == ['"'] + x + ['"'];
      ScanQuoted(input, i, st, x, '"');
  }

  lemma AdvanceOpen(input: string, i: nat, st: Tok)
    requires i < |input| && input[i] == '(' && st.quote.None?
    ensures Advance(input, i, st) == Ok((i + 1, st.Put("(").(depth := st.depth + 1)))
  {
  }

  lemma ScanOpen(input: string, i: nat, st: Tok)
    requires Occurs(input, i, "(") && st.quote.None?
    ensures Scan(input, i, st) == Scan(input, i + 1, st.Put("(").(depth := st.depth + 1))
  {
    hide Scan, Advance;
    assert input[i] == input[i..i + 1][0] == '(';
    AdvanceOpen(input, i, st);
    ScanStep(input, i, st);
  }

  lemma ScanClose(input: string, i: nat, st: Tok)
    requires Occurs(input, i, ")") && st.quote.None? && st.depth > 0
    ensures Scan(input, i, st) == Scan(input, i + 1, st.Put(")").(depth := st.depth - 1))
  {
    hide Scan;
    assert input[i] == input[i..i + 1][0] == ')';
    ScanStep(input, i, st);
  }

  /** The tokenizer's state just inside a group's opening parenthesis. */
  function Inside(st: Tok, open: string): Tok { st.Put(open).(depth := st.depth + 1) }

  lemma ScanOpening(input: string, i: nat, st: Tok, bang: string)
    requires bang == "" || bang == "!"
    requires Occurs(input, i, bang + "(") && st.quote.None?
    ensures Scan(input, i, st) == Scan(input, i + |bang| + 1, Inside(st, bang + "("))
  {
    hide Scan, Advance, AtPatternStart;
    assert PlainChar('!');
    assert forall c :: c in bang ==> c == '!';
    OccursSplit(input, i, bang, "(");
    ScanPlain(input, i, st, bang);
    ScanOpen(input, i + |bang|, st.Put(bang));
    assert st.token + bang + "(" == st.token + (bang + "(");
  }

  lemma ScanParens(input: string, i: nat, st: Tok, bang: string, text: string)
    requires bang == "" || bang == "!"
    requires Occurs(input, i, bang + "(" + text + ")") && st.quote.None?
    requires Absorbs(input, i + |bang| + 1, Inside(st, bang + "("), text)
    ensures Absorbs(input, i, st, bang + "(" + text + ")")
  {
    hide Scan, Advance, AtPatternStart, Occurs;
    OccursSplit(input, i, bang + "(" + text, ")");
    OccursSplit(input, i, bang + "(", text);
    ScanOpening(input, i, st, bang);
    var full, j := Inside(st, bang + "(").Put(text), i + |bang + "(" + text|;
    assert j == i + |bang| + 1 + |text|;
    ScanClose(input, j, full);
    assert full.Put(")").(depth := st.depth) == st.Put(bang + "(" + text + ")");
  }

  // ----- every word is scanned as it stands ------------------------------------------

  /** A word may start here: after nothing, a space or an opening parenthesis. */
  ghost predicate Opens(input: string, i: nat) {
    i == 0 || (i <= |input| && (input[i - 1] == ' ' || input[i - 1] == '('))
  }

  ghost predicate Ends(input: string, j: nat) {
    j == |input| || (j < |input| && (input[j] == ' ' || input[j] == ')'))
  }

  ghost predicate InPlace(input: string, i: nat, w: string) {
    Occurs(input, i, w) && Opens(input, i) && Ends(input, i + |w|)
  }

  predicate Joint(w: string) { w == "&&" || w == "||" }

  /** Wherever the word stands it is taken whole; `&&` and `||` are so inside parentheses. */
  ghost predicate Solid(w: string) {
    forall input, i: nat, st: Tok {:trigger Absorbs(input, i, st, w)} ::
      InPlace(input, i, w) && st.quote.None? && (st.depth > 0 || !Joint(w)) ==> Absorbs(input, i, st, w)
  }

  predicate PlainWord(w: string) { w != "" && forall c :: c in w ==> PlainChar(c) }

  /** Bars stand between words, never two together. */
  predicate SingleBars(x: string) { forall k: nat :: k < |x| ==> SingleAt(x, k) }

  predicate SingleAt(x: string, k: nat)
    requires k < |x|
  {
    PlainChar(x[k]) || (x[k] == '|' && k + 1 < |x| && x[k + 1] != '|')
  }

  lemma ScanBarred(input: string, i: nat, st: Tok, x: string)
    requires Occurs(input, i, x) && st.quote.None? && SingleBars(x)
    ensures Absorbs(input, i, st, x)
  {
    hide Scan, PlainChar;
    OccursAt(input, i, x);
    var inside := st.depth > 0;
    forall k: nat | i <= k < i + |x| ensures Taken(input, k, inside) {
      var j := k - i;
      assert SingleAt(x, j);
      assert input[k] == x[j] && (j + 1 < |x| ==> input[k + 1] == x[j + 1]);
    }
    ScanRun(input, i, st, x, inside);
  }

  lemma BarIsNotPlain()
    ensures !PlainChar('|')
  {
  }

  lemma JoinedAreSingle(w: string, rest: string)
    requires PlainWord(w) && SingleBars(rest) && rest != "" && PlainChar(rest[0])
    ensures SingleBars(w + "|" + rest)
  {
    hide PlainChar;
    var x, n := w + "|" + rest, |w|;
    assert !PlainChar('|') by { BarIsNotPlain(); }
    forall k: nat | k < |x| ensures SingleAt(x, k) {
      if k < n { assert x[k] == w[k] && w[k] in w; }
      else if k == n { assert x[k] == '|' && x[k + 1] == rest[0]; }
      else {
        var j := k - n - 1;
        assert SingleAt(rest, j);
        assert x[k] == rest[j] && (j + 1 < |rest| ==> x[k + 1] == rest[j + 1]);
      }
    }
  }

  lemma {:induction false} BarsAreSingle(words: seq<string>)
    requires words != [] && words[0] != "" && forall j :: 0 <= j < |words| ==> PlainWord(words[j])
    ensures Bars(words) != "" && Bars(words)[0] == words[0][0] && SingleBars(Bars(words))
    ensures PlainChar(words[0][0])
  {
    hide SingleBars;
    assert PlainWord(words[0]) && words[0][0] in words[0];
    if |words| > 1 {
      assert PlainWord(words[1]);
      BarsAreSingle(words[1..]);
      JoinedAreSingle(words[0], Bars(words[1..]));
    } else {
      PlainIsSingle(words[0]);
    }
  }

  lemma PlainIsSingle(w: string)
    requires PlainWord(w)
    ensures SingleBars(w)
  {
    forall k: nat | k < |w| ensures SingleAt(w, k) {
      assert w[k] in w;
    }
  }

  lemma {:induction false} RegexEndIs(s: string, more: string, i: nat)
    requires 1 <= i < |s| && s[|s| - 1] == '/' && forall k :: 1 <= k < |s| - 1 ==> SourceChar(s[k])
    requires EndsTerm(s + more, |s|)
    ensures RegexEndFrom(s + more, i, false, 0, None) == Some(|s|)
    decreases |s| - i
  {
    assert (s + more)[i] == s[i];
    if i < |s| - 1 { RegexEndIs(s, more, i + 1); }
  }

  lemma TrimNone(s: string)
    requires s == "" || s[|s| - 1] != '!'
    ensures TrimBangs(s) == s && TrimBangs(s + "!") == s
  {
    assert (s + "!")[..|s|] == s;
  }

  ghost predicate WordStart(base: string) {
    base == "" || base[|base| - 1] == ' ' || base[|base| - 1] == '('
  }

  /** A regular expression may start after the markers of a word. */
  lemma PatternStarts(base: string, negate: bool, onLabels: bool)
    requires WordStart(base)
    ensures AtPatternStart(base + Markers(negate, onLabels))
  {
    hide AtPatternStart;
    var head := if negate then base + "!" else base;
    if onLabels {
      StartsAfterLabel(base, head);
      assert base + Markers(negate, onLabels) == head + "label:";
    } else {
      StartsAfterBang(base, head);
      assert base + Markers(negate, onLabels) == head;
    }
  }

  lemma StartsAfterLabel(base: string, head: string)
    requires WordStart(base) && (head == base || head == base + "!")
    ensures AtPatternStart(head + "label:")
  {
    hide TrimBangs, IsWhitespace;
    TrimNone(base);
    CutsLabel(head, "label:");
    var before := head + "label:";
    assert |before| - 6 == |head| && TrimBangs(head) == base;
    assert base == "" || base[|base| - 1] == '(' || IsWhitespace(base[|base| - 1]) by { SpaceIsSpace(); }
  }

  lemma SpaceIsSpace()
    ensures IsWhitespace(' ')
  {
  }

  lemma CutsLabel(head: string, tag: string)
    ensures (head + tag)[|head|..] == tag && (head + tag)[..|head|] == head
  {
  }

  lemma StartsAfterBang(base: string, head: string)
    requires WordStart(base) && (head == base || head == base + "!")
    ensures AtPatternStart(head)
  {
    hide TrimBangs;
    TrimNone(base);
    NoLabelEnd(head);
  }

  lemma NoLabelEnd(s: string)
    requires s == "" || s[|s| - 1] != ':'
    ensures |s| >= 6 ==> s[|s| - 6..] != "label:"
  {
    if |s| >= 6 { assert s[|s| - 6..][5] == s[|s| - 1] && "label:"[5] == ':'; }
  }

  lemma ScanExpr(input: string, i: nat, st: Tok, source: string)
    requires Occurs(input, i, "/" + source + "/") && st.quote.None? && forall c :: c in source ==> SourceChar(c)
    requires AtPatternStart(input[..i]) && Ends(input, i + |source| + 2)
    ensures Absorbs(input, i, st, "/" + source + "/")
  {
    hide Scan, AtPatternStart, RegexEndFrom;
    var x := "/" + source + "/";
    var more := input[i + |x|..];
    assert input[i..] == x + more;
    assert forall k :: 1 <= k < |x| - 1 ==> x[k] == source[k - 1];
    assert EndsTerm(x + more, |x|) by { assert more == [] || more[0] == input[i + |x|]; }
    RegexEndIs(x, more, 1);
    FirstChar(input, i, x);
    ScanStep(input, i, st);
  }

  lemma ScanPat(input: string, i: nat, st: Tok, pat: Pat)
    requires Occurs(input, i, PatText(pat)) && st.quote.None? && WritablePat(pat)
    requires pat.Expr? ==> AtPatternStart(input[..i]) && Ends(input, i + |PatText(pat)|)
    ensures Absorbs(input, i, st, PatText(pat))
  {
    hide Scan, AtPatternStart, Bars;
    match pat
    case Quote(text) => ScanDressed(input, i, st, text, Double);
    case Head(text) => ScanPlain(input, i, st, "^" + text);
    case Expr(source) => ScanExpr(input, i, st, source);
    case Loose(text) => ScanPlain(input, i, st, "~" + text);
    case OneOf(words) =>
      OneOfIsBars(words);
      ScanBarred(input, i, st, Bars(words));
    case Word(text) => ScanPlain(input, i, st, text);
  }

  lemma OneOfIsBars(words: seq<string>)
    requires WritablePat(OneOf(words))
    ensures words != [] && forall j :: 0 <= j < |words| ==> PlainWord(words[j])
    ensures words[0] != "" && Bars(words) != "" && Bars(words)[0] == words[0][0] && SingleBars(Bars(words))
  {
    hide Bars, SingleBars;
    forall j | 0 <= j < |words| ensures PlainWord(words[j]) {
      assert words[j] in words && WordText(words[j]);
    }
    BarsAreSingle(words);
  }

  lemma ScanText(input: string, i: nat, st: Tok, negate: bool, onLabels: bool, pat: Pat)
    requires WritablePat(pat) && InPlace(input, i, Markers(negate, onLabels) + PatText(pat)) && st.quote.None?
    ensures Absorbs(input, i, st, Markers(negate, onLabels) + PatText(pat))
  {
    hide Scan, AtPatternStart, PatText, WritablePat, PlainChar;
    var head := Markers(negate, onLabels);
    OccursSplit(input, i, head, PatText(pat));
    MarkersArePlain(negate, onLabels);
    ScanPlain(input, i, st, head);
    PatternStarts(input[..i], negate, onLabels);
    assert input[..i + |head|] == input[..i] + head;
    ScanPat(input, i + |head|, st.Put(head), pat);
    AbsorbJoin(input, i, st, head, PatText(pat));
  }

  lemma MarkersArePlain(negate: bool, onLabels: bool)
    ensures forall c :: c in Markers(negate, onLabels) ==> PlainChar(c)
  {
  }

  lemma ScanCompare(input: string, i: nat, st: Tok, key: string, op: Op, raw: string, style: Style)
    requires Writable(Compare(key, op, raw, style))
    requires Occurs(input, i, CompareWord(key, op, raw, style)) && st.quote.None?
    ensures Absorbs(input, i, st, CompareWord(key, op, raw, style))
  {
    hide Scan, IsKey, Dressed;
    var o := OpText(op);
    OccursSplit(input, i, key + o, Dressed(raw, style));
    ScanKeyOp(input, i, st, key, op);
    ScanDressed(input, i + |key + o|, st.Put(key + o), raw, style);
    AbsorbJoin(input, i, st, key + o, Dressed(raw, style));
  }

  lemma ScanKeyOp(input: string, i: nat, st: Tok, key: string, op: Op)
    requires IsKey(key) && Occurs(input, i, key + OpText(op)) && st.quote.None?
    ensures Absorbs(input, i, st, key + OpText(op))
  {
    hide Scan;
    OccursSplit(input, i, key, OpText(op));
    KeyIsBare(key);
    ScanBare(input, i, st, key);
    ScanPlain(input, i + |key|, st.Put(key), OpText(op));
    AbsorbJoin(input, i, st, key, OpText(op));
  }

  /** Inside parentheses: what has no quote, parenthesis or slash in it. */
  lemma ScanInside(input: string, i: nat, st: Tok, x: string)
    requires Occurs(input, i, x) && st.quote.None? && st.depth > 0
    requires forall c :: c in x ==> PlainChar(c) || c == ' ' || c == '&' || c == '|'
    ensures Absorbs(input, i, st, x)
  {
    hide Scan;
    OccursAt(input, i, x);
    ScanRun(input, i, st, x, st.depth > 0);
  }

  /** What is read of one word, wherever it stands. */
  lemma {:induction false} ScanWord(input: string, i: nat, st: Tok, p: Piece, j: nat)
    requires Writable(p) && j < |PieceWords(p)| && InPlace(input, i, PieceWords(p)[j]) && st.quote.None?
    requires p.And? ==> st.depth > 0
    ensures Absorbs(input, i, st, PieceWords(p)[j])
    decreases p, 0
  {
    hide Scan, WritablePat, PatText, InQuotes, PrintBody, GroupWord, Markers;
    match p
    case Text(negate, onLabels, pat) =>
      ScanText(input, i, st, negate, onLabels, pat);
    case Compare(key, op, raw, style) => ScanCompare(input, i, st, key, op, raw, style);
    case NoValue(key, op) => ScanKeyOp(input, i, st, key, op);
    case Selector(flag, sel, style) =>
      if j == 0 { ScanPlain(input, i, st, FlagText(flag)); } else { ScanDressed(input, i, st, sel, style); }
    case Attached(flag, sel) => ScanBare(input, i, st, FlagText(flag) + sel);
    case InSet(key, negate, values) =>
      if j == 3 { ScanValues(input, i, st, values); } else { ScanSetStart(input, i, st, key, negate, j); }
    case Alone(flag) => ScanPlain(input, i, st, FlagText(flag));
    case HalfSet(key, negate) => ScanSetStart(input, i, st, key, negate, j);
    case And => ScanInside(input, i, st, "&&");
    case Group(negate, body) => ScanGroup(input, i, st, negate, body);
  }

  lemma ScanSetStart(input: string, i: nat, st: Tok, key: string, negate: bool, j: nat)
    requires BareSelector(key) && j < 3 && Occurs(input, i, ["-l", key, SetText(negate)][j]) && st.quote.None?
    ensures Absorbs(input, i, st, ["-l", key, SetText(negate)][j])
  {
    hide Scan;
    if j == 1 { ScanBare(input, i, st, key); } else { ScanPlain(input, i, st, ["-l", key, SetText(negate)][j]); }
  }

  lemma ScanValues(input: string, i: nat, st: Tok, values: string)
    requires (forall c :: c in values ==> PlainChar(c) || c == ' ') && Occurs(input, i, "(" + values + ")")
    requires st.quote.None?
    ensures Absorbs(input, i, st, "(" + values + ")")
  {
    hide Scan;
    OccursSplit(input, i, "(" + values, ")");
    OccursSplit(input, i, "(", values);
    assert "" + "(" == "(" && "" + "(" + values + ")" == "(" + values + ")";
    ScanInside(input, i + 1, Inside(st, "("), values);
    ScanParens(input, i, st, "", values);
  }

  lemma {:induction false} ScanGroup(input: string, i: nat, st: Tok, negate: bool, body: seq<Line>)
    requires WritableBody(body) && Occurs(input, i, GroupWord(negate, PrintBody(body))) && st.quote.None?
    ensures Absorbs(input, i, st, GroupWord(negate, PrintBody(body)))
    decreases body, 2
  {
    hide Scan, BodyWords, Spaced, WritableLine;
    var bang, text := if negate then "!" else "", PrintBody(body);
    assert GroupWord(negate, text) == bang + "(" + text + ")";
    OccursSplit(input, i, bang + "(" + text, ")");
    OccursSplit(input, i, bang + "(", text);
    FirstChar(input, i + |bang + "(" + text|, ")");
    assert input[i + |bang|] == '(' by { OccursAt(input, i, bang + "("); }
    WordsAreSolid(body);
    ScanSpaced(input, i + |bang| + 1, Inside(st, bang + "("), BodyWords(body));
    ScanParens(input, i, st, bang, text);
  }

  ghost predicate AllSolid(ws: seq<string>) { forall w :: w in ws ==> w != "" && Solid(w) }

  lemma SpacedShort(ws: seq<string>)
    ensures ws == [] ==> Spaced(ws) == ""
    ensures |ws| == 1 ==> Spaced(ws) == ws[0]
  {
  }

  /** A word, the space after it and the rest. */
  lemma JoinedInPlace(input: string, i: nat, first: string, rest: string)
    requires InPlace(input, i, first + (" " + rest))
    ensures var j := i + |first|;
            InPlace(input, i, first) && Occurs(input, j, " ") && InPlace(input, j + 1, rest)
  {
    hide Occurs;
    OccursSplit(input, i, first, " " + rest);
    OccursSplit(input, i + |first|, " ", rest);
    FirstChar(input, i + |first|, " ");
  }

  lemma SpacedLong(ws: seq<string>)
    requires |ws| >= 2
    ensures Spaced(ws) == ws[0] + (" " + Spaced(ws[1..]))
  {
  }

  /** The first word of several, the space after it and the rest. */
  lemma SpacedInPlace(input: string, i: nat, ws: seq<string>)
    requires |ws| >= 2 && InPlace(input, i, Spaced(ws))
    ensures var j := i + |ws[0]|;
      && InPlace(input, i, ws[0]) && Occurs(input, j, " ") && InPlace(input, j + 1, Spaced(ws[1..]))
      && Spaced(ws) == ws[0] + (" " + Spaced(ws[1..]))
  {
    hide Occurs, Opens, Ends, InPlace, Spaced;
    SpacedLong(ws);
    JoinedInPlace(input, i, ws[0], Spaced(ws[1..]));
  }

  /** Words inside parentheses. */
  lemma {:induction false} ScanSpaced(input: string, i: nat, st: Tok, ws: seq<string>)
    requires AllSolid(ws) && st.quote.None? && st.depth > 0 && InPlace(input, i, Spaced(ws))
    ensures Absorbs(input, i, st, Spaced(ws))
    decreases |ws|
  {
    hide Scan, Solid, Opens, Ends, Spaced;
    SpacedShort(ws);
    assert ws != [] ==> ws[0] in ws;
    if ws == [] {
      assert st.Put("") == st;
    } else if |ws| == 1 {
      SolidScans(input, i, st, ws[0]);
    } else {
      var first, rest := ws[0], Spaced(ws[1..]);
      SpacedInPlace(input, i, ws);
      SolidScans(input, i, st, first);
      ScanInside(input, i + |first|, st.Put(first), " ");
      ScanSpaced(input, i + |first| + 1, st.Put(first).Put(" "), ws[1..]);
      AbsorbJoin(input, i + |first|, st.Put(first), " ", rest);
      AbsorbJoin(input, i, st, first, " " + rest);
    }
  }

  lemma SolidScans(input: string, i: nat, st: Tok, w: string)
    requires Solid(w) && InPlace(input, i, w) && st.quote.None? && (st.depth > 0 || !Joint(w))
    ensures Absorbs(input, i, st, w)
  {
    hide Scan, InPlace, Joint;
  }

  lemma {:induction false} PieceIsSolid(p: Piece)
    requires Writable(p)
    ensures AllSolid(PieceWords(p))
    decreases p, 1
  {
    hide Scan, Writable;
    var ws := PieceWords(p);
    forall j, input, i: nat, st: Tok |
      0 <= j < |ws| && InPlace(input, i, ws[j]) && st.quote.None? && (st.depth > 0 || !Joint(ws[j]))
      ensures Absorbs(input, i, st, ws[j])
    {
      ScanWord(input, i, st, p, j);
    }
    WordsAreNotEmpty(p);
  }

  lemma WordsAreNotEmpty(p: Piece)
    requires Writable(p)
    ensures forall w :: w in PieceWords(p) ==> w != ""
  {
    hide PrintBody;
    if p.Text? && p.pat.OneOf? { OneOfIsBars(p.pat.words); }
  }

  lemma {:induction false} LineIsSolid(ps: seq<Piece>)
    requires forall p :: p in ps ==> Writable(p)
    ensures AllSolid(LineWords(ps))
    decreases ps, 0
  {
    hide Solid, Writable;
    if ps != [] {
      PieceIsSolid(ps[0]);
      LineIsSolid(ps[1..]);
    }
  }

  lemma {:induction false} WordsAreSolid(b: seq<Line>)
    requires forall x :: x in b ==> WritableLine(x.pieces)
    ensures AllSolid(BodyWords(b))
    decreases b, 1
  {
    hide Writable, Solid;
    if b != [] {
      assert b[0] in b;
      LineIsSolid(b[0].pieces);
      WordsAreSolid(b[1..]);
      BarsAreSolid();
    }
  }

  lemma BarsAreSolid()
    ensures Solid("||")
  {
    hide Scan;
    forall input, i: nat, st: Tok | InPlace(input, i, "||") && st.quote.None? && st.depth > 0
      ensures Absorbs(input, i, st, "||")
    {
      ScanInside(input, i, st, "||");
    }
  }

  // ----- the tokens of a printed filter ------------------------------------------------

  lemma ScanCut(input: string, i: nat, st: Tok)
    requires Occurs(input, i, " ") && st.quote.None? && st.depth == 0
    ensures Scan(input, i, st) == Scan(input, i + 1, st.Cut())
  {
    hide Scan;
    assert input[i] == input[i..i + 1][0] == ' ';
    ScanStep(input, i, st);
  }

  lemma ScanJoint(input: string, i: nat, done: seq<string>, w: string)
    requires Joint(w) && Occurs(input, i, w)
    ensures Scan(input, i, Tok(done, "", None, 0)) == Scan(input, i + 2, Tok(done + [w], "", None, 0))
  {
    hide Scan, AtPatternStart;
    FirstChar(input, i, w);
    FirstChar(input, i + 1, w[1..]);
    ScanStep(input, i, Tok(done, "", None, 0));
  }

  lemma ScanEnd(input: string, st: Tok)
    requires st.quote.None? && st.depth == 0
    ensures Scan(input, |input|, st) == Ok(st.Cut().tokens)
  {
  }

  /** A word and the end of its token. */
  lemma TopWord(input: string, i: nat, done: seq<string>, w: string)
    requires w != "" && Solid(w) && InPlace(input, i, w)
    ensures var j := i + |w|;
      && (j == |input| ==> Scan(input, i, Tok(done, "", None, 0)) == Ok(done + [w]))
      && (Occurs(input, j, " ") ==>
            Scan(input, i, Tok(done, "", None, 0)) == Scan(input, j + 1, Tok(done + [w], "", None, 0)))
  {
    hide Scan, Solid;
    var st, j := Tok(done, "", None, 0), i + |w|;
    if Joint(w) {
      ScanJoint(input, i, done, w);
      var after := Tok(done + [w], "", None, 0);
      if j == |input| { ScanEnd(input, after); }
      if Occurs(input, j, " ") { ScanCut(input, j, after); }
    } else {
      SolidScans(input, i, st, w);
      assert st.Put(w) == Tok(done, w, None, 0);
      if j == |input| { ScanEnd(input, Tok(done, w, None, 0)); }
      if Occurs(input, j, " ") { ScanCut(input, j, Tok(done, w, None, 0)); }
    }
  }

  lemma {:induction false} TopWords(input: string, i: nat, done: seq<string>, ws: seq<string>)
    requires AllSolid(ws) && InPlace(input, i, Spaced(ws)) && i + |Spaced(ws)| == |input|
    ensures Scan(input, i, Tok(done, "", None, 0)) == Ok(done + ws)
    decreases |ws|
  {
    hide Scan, Solid, Opens, Ends, Spaced;
    SpacedShort(ws);
    assert ws != [] ==> ws[0] in ws;
    if ws == [] {
      ScanEnd(input, Tok(done, "", None, 0));
      assert done + ws == done;
    } else if |ws| == 1 {
      assert ws == [ws[0]];
      TopWord(input, i, done, ws[0]);
    } else {
      var first := ws[0];
      SpacedInPlace(input, i, ws);
      TopWord(input, i, done, first);
      TopWords(input, i + |first| + 1, done + [first], ws[1..]);
      assert done + [first] + ws[1..] == done + ws;
    }
  }

  /** Tokenizing a printed filter gives its words, cut exactly at its separators. */
  lemma TokensOfPrinted(b: seq<Line>)
    requires WritableBody(b)
    ensures Tokens(PrintBody(b)) == Ok(BodyWords(b))
  {
    hide Scan, BodyWords, Spaced, WritableLine, Solid;
    var input := PrintBody(b);
    assert input[0..|input|] == input;
    WordsAreSolid(b);
    TopWords(input, 0, [], BodyWords(b));
    assert [] + BodyWords(b) == BodyWords(b);
  }

  // ----- what each word is read as ----------------------------------------------------

  function Put(acc: Acc, e: Effect): Acc {
    match e
    case Adds(term) => acc.Add(term)
    case AddsLabel(sel) => acc.(labels := acc.labels + [sel])
    case AddsField(sel) => acc.(fields := acc.fields + [sel])
    case Fails(error) => acc.Fail(error)
    case Silent => acc
  }

  lemma {:induction false} KeyEndAt(key: string, rest: string)
    requires (forall c :: c in key ==> KeyChar(c)) && (rest == "" || !KeyChar(rest[0]))
    ensures KeyEnd(key + rest) == |key|
  {
    if key == "" {
      assert key + rest == rest;
    } else {
      KeyEndAt(key[1..], rest);
      assert (key + rest)[1..] == key[1..] + rest;
    }
  }

  lemma SplitOpAlone(op: Op)
    ensures SplitOp(OpText(op)) == Some((op, ""))
  {
    assert OpText(op)[|OpText(op)|..] == "";
    match op
    case Eq =>
    case Ne =>
    case Gt => NotPrefix("=", ">");
    case Ge => NotPrefix("!=", ">=");
    case Lt =>
      NotPrefix("=", "<");
      NotPrefix(">", "<");
    case Le =>
      NotPrefix("!=", "<=");
      NotPrefix(">=", "<=");
  }

  lemma NotPrefix(a: string, b: string)
    requires a != "" && b != "" && a[0] != b[0]
    ensures !(a <= b)
  {
  }

  lemma SplitOpOfText(op: Op, more: string)
    requires more == "" || more[0] != '='
    ensures SplitOp(OpText(op) + more) == Some((op, more))
  {
    var rest := OpText(op) + more;
    assert rest[|OpText(op)|..] == more;
    if more == "" {
      SplitOpAlone(op);
      assert rest == OpText(op);
    } else {
      assert rest[|OpText(op)|] == more[0];
    }
  }

  /** A printed comparison splits into its own key, operator and value. */
  lemma SplitCmpOfPrinted(key: string, op: Op, more: string)
    requires IsKey(key) && (more == "" || more[0] != '=')
    ensures SplitCmp(key + OpText(op) + more) == Some((key, op, more))
  {
    hide SplitOp;
    var rest := OpText(op) + more;
    var tok := key + OpText(op) + more;
    assert tok == key + rest;
    KeyEndAt(key, rest);
    SplitOpOfText(op, more);
    assert tok[|key|..] == rest && tok[..|key|] == key;
  }

  /** A dash in front of a word that is not a selector. */
  predicate NoFlag(tok: string) { "-" <= tok ==> '=' !in tok && tok != "-l" && tok != "-f" }

  /** A token that can only be text or a comparison, by its first characters. */
  predicate Textual(tok: string) {
    && tok != "" && tok[0] != '(' && tok[0] != '&' && tok[0] != '|' && NoFlag(tok)
    && (tok[0] == '!' ==> |tok| > 1 && tok[1] != '(')
  }

  lemma NotSpecial(tok: string)
    requires Textual(tok)
    ensures GroupBody(tok) == None && tok != "||" && tok != "&&" && tok != "-l" && tok != "-f"
    ensures AttachedSelector(tok, "-l") == None && AttachedSelector(tok, "-f") == None
  {
  }

  lemma LeafIsRead(env: Env, tokens: seq<string>, i: nat, d: nat, acc: Acc)
    requires i < |tokens| && GroupBody(tokens[i]) == None
    ensures var (j, acc') := LeafStep(env, tokens, i, acc);
            ParsedFrom(env, tokens, i, d, acc) == ParsedFrom(env, tokens, j, d, acc')
  {
    hide LeafStep, GroupBody;
  }

  lemma CompareIsRead(
    env: Env, tokens: seq<string>, i: nat, d: nat, acc: Acc, key: string, op: Op, raw: string, style: Style)
    requires i < |tokens| && tokens[i] == CompareWord(key, op, raw, style) && Writable(Compare(key, op, raw, style))
    ensures var v := env.typed(key, raw);
            var e := if v.Ok? then Adds(Cmp(Lower(key), op, v.value)) else Fails(v.error);
            ParsedFrom(env, tokens, i, d, acc) == ParsedFrom(env, tokens, i + 1, d, Put(acc, e))
  {
    hide SplitCmp, AttachedSelector, GroupBody, TextStep, SelectorStep, ParsedFrom, OpText, Lower, Dressed, Unquote;
    var more := Dressed(raw, style);
    DressedIsUnquoted(raw, style);
    SplitCmpOfPrinted(key, op, more);
    KeyIsTextual(key, OpText(op) + more);
    assert tokens[i] == key + (OpText(op) + more);
    NotSpecial(tokens[i]);
    LeafIsRead(env, tokens, i, d, acc);
  }

  lemma DressedIsUnquoted(s: string, style: Style)
    requires Wearable(s, style) && (style.Bare? ==> s != "" && BareText(s))
    ensures var w := Dressed(s, style); w != "" && Unquote(w) == s && w[0] == if style.Bare? then s[0] else w[|w| - 1]
    ensures style.Single? ==> Dressed(s, style)[0] == '\''
    ensures style.Double? ==> Dressed(s, style)[0] == '"'
  {
    var w := Dressed(s, style);
    if style.Bare? { assert BareAt(s, 0); } else { assert w[1..|w| - 1] == s; }
  }

  lemma KeyIsTextual(key: string, more: string)
    requires IsKey(key)
    ensures Textual(key + more)
  {
    assert (key + more)[0] == key[0];
  }

  lemma NoValueIsRead(env: Env, tokens: seq<string>, i: nat, d: nat, acc: Acc, key: string, op: Op)
    requires i < |tokens| && tokens[i] == key + OpText(op) && IsKey(key)
    ensures ParsedFrom(env, tokens, i, d, acc) == ParsedFrom(env, tokens, i + 1, d, acc.Fail(MissingValue))
  {
    hide SplitCmp, AttachedSelector, GroupBody, TextStep, SelectorStep, ParsedFrom, OpText;
    assert key + OpText(op) + "" == key + OpText(op);
    SplitCmpOfPrinted(key, op, "");
    KeyIsTextual(key, OpText(op));
    NotSpecial(tokens[i]);
    LeafIsRead(env, tokens, i, d, acc);
  }

  // ----- text ----------------------------------------------------------------------------

  lemma StripOwn(prefix: string, rest: string)
    ensures Strip(prefix, prefix + rest) == Some(rest)
  {
    assert (prefix + rest)[|prefix|..] == rest;
  }

  lemma StripOther(prefix: string, s: string)
    requires prefix != "" && s != "" && s[0] != prefix[0]
    ensures Strip(prefix, s) == None
  {
  }

  lemma {:induction false} BarsCut(words: seq<string>)
    requires words != [] && forall w :: w in words ==> '|' !in w
    ensures SplitBars(Bars(words)) == words
    ensures |words| > 1 ==> '|' in Bars(words)
  {
    hide SplitBars;
    assert words[0] in words;
    var tail := words[1..];
    assert words == [words[0]] + tail;
    if tail == [] {
      SplitBarsPrefix(words[0], "");
    } else {
      BarsCut(tail);
      SplitBarsPrefix(words[0], Bars(tail));
      assert Bars(words) == words[0] + "|" + Bars(tail);
      assert Bars(words)[|words[0]|] == '|';
    }
  }

  lemma BarsSplit(words: seq<string>)
    requires words != [] && forall w :: w in words ==> WordText(w)
    ensures SplitBars(Bars(words)) == words && NonEmpty(words) == words
    ensures |words| > 1 ==> '|' in Bars(words)
  {
    hide WordText, SplitBars, Bars;
    forall w | w in words ensures w != "" && '|' !in w { WordHasNoBar(w); }
    BarsCut(words);
    AllAreKept(words);
  }

  lemma {:induction false} AllAreKept(words: seq<string>)
    requires "" !in words
    ensures NonEmpty(words) == words
  {
    if words != [] {
      AllAreKept(words[1..]);
      assert words == [words[0]] + words[1..];
    }
  }

  /** Every word but the empty ones, as often as it is there. */
  ghost predicate WithoutEmpty(kept: seq<string>, words: seq<string>) {
    forall w :: multiset(kept)[w] == if w == "" then 0 else multiset(words)[w]
  }

  lemma {:induction false} EmptyAreDropped(words: seq<string>)
    ensures WithoutEmpty(NonEmpty(words), words)
  {
    if words != [] {
      EmptyAreDropped(words[1..]);
      assert words == [words[0]] + words[1..];
    }
  }

  lemma {:induction false} SplitBarsPrefix(a: string, rest: string)
    requires '|' !in a
    ensures SplitBars(a) == [a] && SplitBars(a + "|" + rest) == [a] + SplitBars(rest)
  {
    if a == "" {
      assert a + "|" + rest == ['|'] + rest;
    } else {
      SplitBarsPrefix(a[1..], rest);
      assert (a + "|" + rest)[1..] == a[1..] + "|" + rest;
      assert [a[0]] + a[1..] == a;
    }
  }

  lemma WordHasNoBar(w: string)
    requires WordText(w)
    ensures w != "" && '|' !in w && PlainWord(w)
  {
    BarIsNotPlain();
    hide PlainChar;
  }

  lemma PatternOfText(env: Env, pat: Pat)
    requires WritablePat(pat)
    ensures PatText(pat) != "" && PatternOf(env, PatText(pat)) == PatMeaning(env, pat)
  {
    hide PatternOf, PatMeaning, WritablePat, PatText;
    PatStart(pat);
    match pat
    case OneOf(words) => PatternOfBars(env, words);
    case Word(text) => PatternOfWord(env, text);
    case _ => PatternOfMarked(env, pat);
  }

  lemma PatternOfMarked(env: Env, pat: Pat)
    requires !pat.OneOf? && !pat.Word?
    ensures PatternOf(env, PatText(pat)) == PatMeaning(env, pat)
  {
    hide NonEmpty, SplitBars;
    var tok := PatText(pat);
    if tok[0] != '"' { NotPrefix("\"", tok); }
    if tok[0] != '^' { NotPrefix("^", tok); }
    if tok[0] != '~' { NotPrefix("~", tok); }
    match pat
    case Quote(text) =>
      assert tok[1..] == text + "\"";
      assert StripEnd(text + "\"", '"') == Some(text);
    case Head(text) =>
      assert tok[1..] == text && (text == "" ==> tok == "^");
    case Expr(source) => assert tok[1..|tok| - 1] == source;
    case Loose(text) => assert tok[1..] == text;
  }

  /** Nothing in front of plain text that could be read as a marker. */
  lemma NoMarker(tok: string)
    requires Unprefixed(tok)
    ensures !("\"" <= tok) && !("^" <= tok) && !("~" <= tok) && !IsRegex(tok)
  {
    NotPrefix("\"", tok);
    NotPrefix("^", tok);
    NotPrefix("~", tok);
  }

  lemma PatternOfBars(env: Env, words: seq<string>)
    requires WritablePat(OneOf(words))
    ensures PatternOf(env, PatText(OneOf(words))) == PatMeaning(env, OneOf(words))
  {
    hide Bars, NonEmpty, SplitBars, PlainChar, IsRegex, WordText, SingleBars;
    OneOfIsBars(words);
    BarsSplit(words);
    assert words[0] in words;
    StartsPlainly(words[0]);
    NoMarker(Bars(words));
  }

  /** Words between bars, empty ones too: only the others count, one alone is plain text, and
      there must be one. */
  lemma AlternativesAreRead(env: Env, words: seq<string>)
    requires |words| >= 2 && (forall w :: w in words ==> '|' !in w) && Unprefixed(Bars(words))
    ensures exists kept :: WithoutEmpty(kept, words) &&
              PatternOf(env, Bars(words))
              == if kept == [] then Err(EmptyAlternatives)
                 else if |kept| == 1 then Ok(Literal(kept[0]))
                 else if env.compiles(Bars(words)) then Ok(Either(kept)) else Err(BadRegex)
  {
    hide Bars, NonEmpty, SplitBars, IsRegex;
    BarsCut(words);
    EmptyAreDropped(words);
    NoMarker(Bars(words));
  }

  predicate Unprefixed(tok: string) {
    tok != "" && tok[0] != '"' && tok[0] != '^' && tok[0] != '~' && tok[0] != '/'
  }

  lemma PatternOfWord(env: Env, text: string)
    requires WritablePat(Word(text))
    ensures PatternOf(env, text) == Ok(Literal(text)) && PatText(Word(text)) == text
    ensures PatMeaning(env, Word(text)) == Ok(Literal(text))
  {
    hide NonEmpty, SplitBars, PlainChar, IsRegex, WordText;
    StartsPlainly(text);
    WordHasNoBar(text);
    NoMarker(text);
  }

  lemma StartsPlainly(w: string)
    requires PlainStart(w) && WordText(w)
    ensures w[0] != '"' && w[0] != '^' && w[0] != '~' && w[0] != '/' && w[0] != '('
    ensures w[0] != '&' && w[0] != '|' && w[0] != '!' && w[0] != '=' && w[0] != '<' && w[0] != '>'
  {
    assert w[0] in w;
  }

  /** The first character of a matcher's text. */
  lemma PatStart(pat: Pat)
    requires WritablePat(pat)
    ensures var tok := PatText(pat);
      && tok != "" && tok[0] != '(' && NoFlag(tok) && tok[0] != '&' && tok[0] != '|' && tok[0] != '!'
      && (tok[0] == '"' || tok[0] == '^' || tok[0] == '/' || tok[0] == '~' || pat.OneOf? || pat.Word?)
      && Strip("label:", tok) == None
  {
    hide Bars, PlainChar;
    match pat
    case Quote(_) =>
    case Head(_) =>
    case Expr(_) =>
    case Loose(_) =>
    case OneOf(words) =>
      OneOfIsBars(words);
      assert words[0] in words;
      StartsPlainly(words[0]);
      NoLabelInBars(words);
      NoOpInBars(words);
      BarsSplit(words);
      assert '|' !in "-l" && '|' !in "-f";
    case Word(text) => StartsPlainly(text);
  }

  lemma NoLabelInBars(words: seq<string>)
    requires |words| >= 2 && !("label:" <= words[0])
    ensures !("label:" <= Bars(words))
  {
    hide Bars;
    var w, rest := words[0], Bars(words[1..]);
    BarsUnfold(words);
    NoLabelBeforeBar(w, rest);
  }

  lemma BarsUnfold(words: seq<string>)
    requires |words| >= 2
    ensures Bars(words) == words[0] + "|" + Bars(words[1..])
  {
  }

  lemma NoLabelBeforeBar(w: string, rest: string)
    requires !("label:" <= w)
    ensures !("label:" <= w + "|" + rest)
  {
    var x := w + "|" + rest;
    if |w| >= 6 {
      assert x[..6] == w[..6];
    } else if |x| >= 6 {
      assert x[..6][|w|] == '|' && '|' !in "label:";
    }
  }

  predicate NoOpChar(c: char) { c != '=' && c != '!' && c != '<' && c != '>' }

  lemma NoCmp(tok: string)
    requires forall c :: c in tok ==> NoOpChar(c)
    ensures SplitCmp(tok) == None
  {
    if tok != "" && KeyEnd(tok) < |tok| { assert tok[KeyEnd(tok)] in tok; }
  }

  lemma NoCmpInLabel(rest: string)
    ensures SplitCmp("label:" + rest) == None
  {
    KeyEndAt("label", ":" + rest);
    assert "label:" + rest == "label" + (":" + rest);
  }

  lemma NoCmpInPat(pat: Pat)
    requires WritablePat(pat)
    ensures SplitCmp(PatText(pat)) == None
  {
    hide KeyEnd, SplitOp;
    PatStart(pat);
    if pat.Word? {
      NoCmp(pat.text);
    } else if pat.OneOf? {
      NoOpInBars(pat.words);
      NoCmp(Bars(pat.words));
    }
  }

  lemma {:induction false} NoOpInBars(words: seq<string>)
    requires words != [] && forall w :: w in words ==> WordText(w)
    ensures forall c :: c in Bars(words) ==> NoOpChar(c)
  {
    hide PlainChar;
    assert words[0] in words;
    if |words| > 1 { NoOpInBars(words[1..]); }
  }

  lemma TextIsText(negate: bool, onLabels: bool, pat: Pat)
    requires WritablePat(pat)
    ensures Textual(TextWord(negate, onLabels, pat)) && SplitCmp(TextWord(negate, onLabels, pat)) == None
  {
    hide KeyEnd, SplitOp, PatText, WritablePat;
    PatStart(pat);
    var tok, text := TextWord(negate, onLabels, pat), PatText(pat);
    if negate {
      assert tok == "!" + ((if onLabels then "label:" else "") + text);
    } else if onLabels {
      NoCmpInLabel(text);
      assert tok == "label:" + text;
    } else {
      NoCmpInPat(pat);
      assert tok == text;
    }
  }

  lemma PatternStepIs(env: Env, acc: Acc, negate: bool, onLabels: bool, pat: Pat)
    requires WritablePat(pat)
    ensures PatternStep(env, negate, (if onLabels then "label:" else "") + PatText(pat), acc)
         == Put(acc, TextMeaning(env, negate, onLabels, pat))
  {
    hide PatternOf, PatMeaning, PatText, WritablePat;
    PatStart(pat);
    PatternOfText(env, pat);
    PatternKind(env, pat);
    StripOwn("label:", PatText(pat));
    assert "" + PatText(pat) == PatText(pat);
  }

  lemma TextStepIs(env: Env, acc: Acc, negate: bool, onLabels: bool, pat: Pat)
    requires WritablePat(pat)
    ensures TextStep(env, TextWord(negate, onLabels, pat), acc) == Put(acc, TextMeaning(env, negate, onLabels, pat))
  {
    hide PatternStep, PatText, WritablePat, TextMeaning, Put;
    PatStart(pat);
    PatternStepIs(env, acc, negate, onLabels, pat);
    var tok, inner := TextWord(negate, onLabels, pat), (if onLabels then "label:" else "") + PatText(pat);
    if negate {
      StripOwn("!", inner);
      assert tok == "!" + inner;
    } else {
      assert tok == inner;
      StripOther("!", tok);
    }
  }

  lemma PatternKind(env: Env, pat: Pat)
    ensures var p := PatMeaning(env, pat); p.Ok? ==> (p.value.Fuzzy? <==> pat.Loose?)
  {
  }

  lemma TextIsRead(env: Env, tokens: seq<string>, i: nat, d: nat, acc: Acc, negate: bool, onLabels: bool, pat: Pat)
    requires i < |tokens| && tokens[i] == TextWord(negate, onLabels, pat) && WritablePat(pat)
    ensures ParsedFrom(env, tokens, i, d, acc)
         == ParsedFrom(env, tokens, i + 1, d, Put(acc, TextMeaning(env, negate, onLabels, pat)))
  {
    hide TextStep, TextWord, SplitCmp, AttachedSelector, GroupBody, ParsedFrom, SelectorStep, TextMeaning, Put;
    TextIsText(negate, onLabels, pat);
    NotSpecial(tokens[i]);
    TextStepIs(env, acc, negate, onLabels, pat);
    LeafIsRead(env, tokens, i, d, acc);
  }

  // ----- selectors, operators and groups ---------------------------------------------------

  lemma NoGroup(tok: string)
    requires tok != "" && tok[0] != '(' && tok[0] != '!'
    ensures GroupBody(tok) == None && !("(" <= tok)
  {
    NotPrefix("!(", tok);
    NotPrefix("(", tok);
  }

  lemma FlagIsRead(env: Env, tokens: seq<string>, i: nat, d: nat, acc: Acc, flag: Flag)
    requires i < |tokens| && tokens[i] == FlagText(flag)
    ensures var (j, acc') := SelectorStep(tokens, i, acc);
            ParsedFrom(env, tokens, i, d, acc) == ParsedFrom(env, tokens, j, d, acc')
  {
    hide SelectorStep, ParsedFrom, SplitCmp, TextStep, GroupBody;
    NoGroup(tokens[i]);
    LeafIsRead(env, tokens, i, d, acc);
  }

  lemma BareIsUnquoted(sel: string)
    requires BareSelector(sel)
    ensures Unquote(sel) == sel && !("-" <= sel) && sel != "&&"
  {
    assert BareAt(sel, 0);
    NotPrefix("-", sel);
  }

  lemma SelectorIsRead(env: Env, tokens: seq<string>, i: nat, d: nat, acc: Acc, flag: Flag, sel: string, style: Style)
    requires i + 1 < |tokens| && tokens[i] == FlagText(flag) && Writable(Selector(flag, sel, style))
    requires tokens[i + 1] == Dressed(sel, style)
    requires flag.OnLabels? && i + 2 < |tokens| ==> tokens[i + 2] != "in" && tokens[i + 2] != "notin"
    ensures ParsedFrom(env, tokens, i, d, acc)
         == ParsedFrom(env, tokens, i + 2, d, Put(acc, SelectorMeaning(flag, sel)))
  {
    hide ParsedFrom, Unquote, Dressed, BareText;
    FlagIsRead(env, tokens, i, d, acc, flag);
    DressedIsUnquoted(sel, style);
    NotPrefix("-", tokens[i + 1]);
    if style.Bare? { BareIsUnquoted(sel); Undressed(sel); }
  }

  lemma Undressed(s: string)
    ensures Dressed(s, Bare) == s
  {
  }

  lemma InSetIsRead(env: Env, tokens: seq<string>, i: nat, d: nat, acc: Acc, key: string, negate: bool, values: string)
    requires i + 3 < |tokens| && tokens[i..i + 4] == PieceWords(InSet(key, negate, values)) && BareSelector(key)
    ensures ParsedFrom(env, tokens, i, d, acc)
         == ParsedFrom(env, tokens, i + 4, d,
                       Put(acc, AddsLabel(key + (if negate then " notin (" else " in (") + values + ")")))
  {
    hide ParsedFrom, Unquote, BareSelector;
    var ws := tokens[i..i + 4];
    assert tokens[i] == ws[0] && tokens[i + 1] == ws[1] && tokens[i + 2] == ws[2] && tokens[i + 3] == ws[3];
    FlagIsRead(env, tokens, i, d, acc, OnLabels);
    BareIsUnquoted(key);
    assert key + " " + SetText(negate) + " " + ("(" + values + ")")
        == key + (if negate then " notin (" else " in (") + values + ")";
  }

  lemma HalfSetIsRead(env: Env, tokens: seq<string>, i: nat, d: nat, acc: Acc, key: string, negate: bool)
    requires i + 2 < |tokens| && tokens[i..i + 3] == PieceWords(HalfSet(key, negate)) && BareSelector(key)
    requires i + 3 < |tokens| ==> !("(" <= tokens[i + 3])
    ensures ParsedFrom(env, tokens, i, d, acc) == ParsedFrom(env, tokens, i + 3, d, acc.Fail(NoSelectorSet))
  {
    hide ParsedFrom, Unquote, BareSelector;
    var ws := tokens[i..i + 3];
    assert tokens[i] == ws[0] && tokens[i + 1] == ws[1] && tokens[i + 2] == ws[2];
    FlagIsRead(env, tokens, i, d, acc, OnLabels);
    BareIsUnquoted(key);
  }

  lemma AloneIsRead(env: Env, tokens: seq<string>, i: nat, d: nat, acc: Acc, flag: Flag)
    requires i < |tokens| && tokens[i] == FlagText(flag)
    requires i + 1 < |tokens| ==> "-" <= tokens[i + 1] || tokens[i + 1] == "&&"
    ensures ParsedFrom(env, tokens, i, d, acc) == ParsedFrom(env, tokens, i + 1, d, acc.Fail(NoSelector))
  {
    hide ParsedFrom, Unquote;
    FlagIsRead(env, tokens, i, d, acc, flag);
  }

  lemma AttachedIsRead(env: Env, tokens: seq<string>, i: nat, d: nat, acc: Acc, flag: Flag, sel: string)
    requires i < |tokens| && tokens[i] == FlagText(flag) + sel && '=' in sel
    ensures ParsedFrom(env, tokens, i, d, acc)
         == ParsedFrom(env, tokens, i + 1, d, Put(acc, if flag.OnLabels? then AddsLabel(sel) else AddsField(sel)))
  {
    hide ParsedFrom, SplitCmp, TextStep, SelectorStep;
    var tok := tokens[i];
    assert |sel| > 0 && tok[0] == '-' && tok[1] == FlagText(flag)[1];
    StripOwn(FlagText(flag), sel);
    if flag.OnFields? { assert Strip("-l", tok) == None; }
    NoGroup(tok);
    LeafIsRead(env, tokens, i, d, acc);
  }

  lemma AndIsRead(env: Env, tokens: seq<string>, i: nat, d: nat, acc: Acc)
    requires i < |tokens| && tokens[i] == "&&"
    ensures ParsedFrom(env, tokens, i, d, acc)
         == ParsedFrom(env, tokens, i + 1, d,
                       if i == 0 || i + 1 == |tokens| || tokens[i + 1] == "&&" then acc.Fail(DanglingAnd) else acc)
  {
    hide ParsedFrom, SplitCmp, TextStep, SelectorStep;
    NoGroup(tokens[i]);
    LeafIsRead(env, tokens, i, d, acc);
  }

  lemma GroupParses(negate: bool, text: string)
    ensures GroupBody(GroupWord(negate, text)) == Some((text + ")", negate))
    ensures StripEnd(text + ")", ')') == Some(text)
  {
    var tok, rest := GroupWord(negate, text), text + ")";
    if negate {
      StripOwn("!(", rest);
      assert tok == "!(" + rest;
    } else {
      StripOwn("(", rest);
      StripOther("!(", tok);
      assert tok == "(" + rest;
    }
  }

  lemma GroupIsRead(env: Env, tokens: seq<string>, i: nat, d: nat, acc: Acc, negate: bool, body: seq<Line>)
    requires i < |tokens| && tokens[i] == GroupWord(negate, PrintBody(body)) && WritableBody(body)
    ensures ParsedFrom(env, tokens, i, d, acc)
         == ParsedFrom(env, tokens, i + 1, d,
                       Put(acc, GroupMeaning(negate, Parsed(env, BodyWords(body), d + 1))))
  {
    hide Scan, GroupWord, PrintBody, BodyWords, WritableBody, Parsed;
    var text := PrintBody(body);
    GroupParses(negate, text);
    TokensOfPrinted(body);
    LengthAt(tokens, i);
    assert ParsedGroup(env, text + ")", d, Length(tokens)) == Ok(Parsed(env, BodyWords(body), d + 1));
  }

  // ----- lines -------------------------------------------------------------------------------

  /** What the first word of a piece can be. */
  lemma FirstWord(p: Piece)
    requires Writable(p)
    ensures var w := PieceWords(p)[0];
      && (Dashed(p) ==> "-" <= w) && (w == "&&" <==> p.And?)
      && ("(" <= w ==> p.Group? && !p.negate)
      && (w == "in" || w == "notin" ==> p == Text(false, false, Word(w)))
      && w != "||"
  {
    hide PrintBody, KeyEnd, SplitOp, PatText, WritablePat, OpText;
    match p
    case Text(negate, onLabels, pat) =>
      TextIsText(negate, onLabels, pat);
      NotPrefix("(", TextWord(negate, onLabels, pat));
      TextIsIn(negate, onLabels, pat);
    case Compare(key, op, raw, style) => KeyThenOp(key, op, Dressed(raw, style));
    case NoValue(key, op) =>
      KeyThenOp(key, op, "");
      assert key + OpText(op) + "" == key + OpText(op);
    case Group(negate, body) =>
      var w := GroupWord(negate, PrintBody(body));
      assert w[0] == if negate then '!' else '(';
      if negate { NotPrefix("(", w); }
    case And => NotPrefix("(", "&&");
    case _ =>
      NotPrefix("(", PieceWords(p)[0]);
      assert PieceWords(p)[0][0] == '-';
  }

  lemma TextIsIn(negate: bool, onLabels: bool, pat: Pat)
    requires WritablePat(pat)
    ensures var w := TextWord(negate, onLabels, pat);
            w == "in" || w == "notin" ==> !negate && !onLabels && pat == Word(w)
  {
    hide PatText, WritablePat;
    var w := TextWord(negate, onLabels, pat);
    PatStart(pat);
    assert negate ==> w[0] == '!';
    assert !negate && onLabels ==> w[0] == 'l';
    if !negate && !onLabels {
      assert w == PatText(pat);
      PatIsIn(pat);
    }
  }

  lemma PatIsIn(pat: Pat)
    requires WritablePat(pat)
    ensures PatText(pat) == "in" || PatText(pat) == "notin" ==> pat == Word(PatText(pat))
  {
    hide Bars, WordText;
    PatStart(pat);
    if pat.OneOf? { BarsSplit(pat.words); }
  }

  lemma KeyThenOp(key: string, op: Op, more: string)
    requires IsKey(key)
    ensures var w := key + OpText(op) + more;
            Textual(w) && !("(" <= w) && w != "in" && w != "notin" && w != "&&" && w != "||"
  {
    var w := key + OpText(op) + more;
    assert w[0] == key[0] && w[|key|] == OpText(op)[0];
    NotPrefix("(", w);
    assert w != "in" && w != "notin" by { assert forall k :: 0 <= k < 5 ==> NoOpChar("notin"[k]); }
  }

  lemma LineWordsOne(p: Piece, ps: seq<Piece>)
    ensures LineWords([p] + ps) == PieceWords(p) + LineWords(ps)
  {
    hide PieceWords;
    assert ([p] + ps)[1..] == ps;
  }

  lemma {:induction false} LineWordsSplit(a: seq<Piece>, b: seq<Piece>)
    ensures LineWords(a + b) == LineWords(a) + LineWords(b)
    decreases |a|
  {
    hide PieceWords, LineWords;
    if a == [] {
      assert a + b == b && LineWords([]) == [] by { NoWords(); }
    } else {
      var p, tail := a[0], a[1..];
      LineWordsSplit(tail, b);
      LineWordsOne(p, tail);
      LineWordsOne(p, tail + b);
      assert a == [p] + tail;
      assert a + b == [p] + (tail + b);
    }
  }

  lemma NoWords()
    ensures LineWords([]) == []
  {
  }

  /** Where the words of piece `k` start. */
  function At(ps: seq<Piece>, k: nat): nat
    requires k <= |ps|
  {
    |LineWords(ps[..k])|
  }

  lemma WordsAt(ps: seq<Piece>, k: nat)
    requires k < |ps|
    ensures At(ps, k + 1) == At(ps, k) + |PieceWords(ps[k])| <= |LineWords(ps)|
    ensures LineWords(ps)[At(ps, k)..At(ps, k + 1)] == PieceWords(ps[k])
    ensures if k + 1 == |ps| then At(ps, k + 1) == |LineWords(ps)|
            else At(ps, k + 1) < |LineWords(ps)| && LineWords(ps)[At(ps, k + 1)] == PieceWords(ps[k + 1])[0]
    ensures At(ps, k) == 0 <==> k == 0
  {
    hide PieceWords, LineWords;
    var before, after := ps[..k], ps[k + 1..];
    PiecesAround(ps, k);
    Middle(LineWords(before), PieceWords(ps[k]), LineWords(after));
    FirstOfLine(before);
    FirstOfLine(after);
  }

  lemma PiecesAround(ps: seq<Piece>, k: nat)
    requires k < |ps|
    ensures LineWords(ps) == LineWords(ps[..k]) + (PieceWords(ps[k]) + LineWords(ps[k + 1..]))
    ensures LineWords(ps[..k + 1]) == LineWords(ps[..k]) + PieceWords(ps[k])
  {
    hide PieceWords, LineWords;
    WordsOfThree(ps[..k], ps[k], ps[k + 1..]);
    CutAround(ps, k);
  }

  lemma CutAround(ps: seq<Piece>, k: nat)
    requires k < |ps|
    ensures ps[..k] + ([ps[k]] + ps[k + 1..]) == ps && ps[..k] + [ps[k]] == ps[..k + 1]
  {
  }

  lemma WordsOfThree(before: seq<Piece>, p: Piece, after: seq<Piece>)
    ensures LineWords(before + ([p] + after)) == LineWords(before) + (PieceWords(p) + LineWords(after))
    ensures LineWords(before + [p]) == LineWords(before) + PieceWords(p)
  {
    hide PieceWords, LineWords;
    OnePiece(p);
    LineWordsSplit(before, [p]);
    LineWordsSplit([p], after);
    LineWordsSplit(before, [p] + after);
  }

  lemma OnePiece(p: Piece)
    ensures LineWords([p]) == PieceWords(p)
  {
    assert [p][1..] == [] && LineWords([p]) == PieceWords(p) + [];
  }

  lemma Middle(a: seq<string>, w: seq<string>, c: seq<string>)
    ensures var x := a + (w + c);
      && |a| + |w| <= |x| && x[|a|..|a| + |w|] == w
      && (c != [] ==> |a| + |w| < |x| && x[|a| + |w|] == c[0]) && (c == [] ==> |x| == |a| + |w|)
  {
  }

  lemma FirstOfLine(ps: seq<Piece>)
    ensures LineWords(ps) == [] <==> ps == []
    ensures ps != [] ==> LineWords(ps)[0] == PieceWords(ps[0])[0]
  {
  }

  lemma {:induction false} PieceIsRead(env: Env, ps: seq<Piece>, k: nat, d: nat, acc: Acc)
    requires WritableLine(ps) && k < |ps| && At(ps, k) <= |LineWords(ps)| && At(ps, k + 1) <= |LineWords(ps)|
    ensures ParsedFrom(env, LineWords(ps), At(ps, k), d, acc)
         == ParsedFrom(env, LineWords(ps), At(ps, k + 1), d, Put(acc, PieceMeaning(env, ps, k, d)))
    decreases ps, 0
  {
    hide ParsedFrom, Parsed, LineWords, At, Put, WritablePat, BareSelector, TextWord, CompareWord, GroupWord, PrintBody;
    hide SelectorMeaning, TextMeaning, GroupMeaning, BodyWords;
    WordsAt(ps, k);
    var tokens, i, j, p := LineWords(ps), At(ps, k), At(ps, k + 1), ps[k];
    assert p in ps && tokens[i] == tokens[i..j][0];
    if k + 1 < |ps| {
      assert ps[k + 1] in ps && Follows(ps[k], ps[k + 1]);
      FirstWord(ps[k + 1]);
    }
    PutUnfolds(acc);
    match p
    case Text(negate, onLabels, pat) => TextIsRead(env, tokens, i, d, acc, negate, onLabels, pat);
    case Compare(key, op, raw, style) => CompareIsRead(env, tokens, i, d, acc, key, op, raw, style);
    case NoValue(key, op) => NoValueIsRead(env, tokens, i, d, acc, key, op);
    case Selector(flag, sel, style) =>
      assert tokens[i + 1] == tokens[i..j][1];
      SelectorIsRead(env, tokens, i, d, acc, flag, sel, style);
    case Attached(flag, sel) => AttachedIsRead(env, tokens, i, d, acc, flag, sel);
    case InSet(key, negate, values) => InSetIsRead(env, tokens, i, d, acc, key, negate, values);
    case Alone(flag) => AloneIsRead(env, tokens, i, d, acc, flag);
    case HalfSet(key, negate) => HalfSetIsRead(env, tokens, i, d, acc, key, negate);
    case And => AndIsRead(env, tokens, i, d, acc);
    case Group(negate, body) =>
      GroupIsRead(env, tokens, i, d, acc, negate, body);
      ParsedBody(env, body, d + 1);
  }

  lemma PutUnfolds(acc: Acc)
    ensures forall e :: Put(acc, Fails(e)) == acc.Fail(e)
    ensures Put(acc, Silent) == acc
  {
  }

  function PutAll(acc: Acc, es: seq<Effect>): Acc
    decreases |es|
  {
    if es == [] then acc else PutAll(Put(acc, es[0]), es[1..])
  }

  lemma PutAllOne(acc: Acc, es: seq<Effect>, k: nat)
    requires k < |es|
    ensures PutAll(acc, es[k..]) == PutAll(Put(acc, es[k]), es[k + 1..])
  {
    assert es[k..][0] == es[k] && es[k..][1..] == es[k + 1..];
  }

  lemma {:induction false} LineIsRead(env: Env, ps: seq<Piece>, k: nat, d: nat, acc: Acc)
    requires WritableLine(ps) && k <= |ps| && At(ps, k) <= |LineWords(ps)|
    ensures ParsedFrom(env, LineWords(ps), At(ps, k), d, acc) == PutAll(acc, LineEffects(env, ps, d)[k..])
    decreases ps, 1, |ps| - k
  {
    hide Parsed, ParsedFrom, LineWords, PieceWords, At, Put, PutAll, WritableLine, PieceMeaning, LineEffects;
    var es := LineEffects(env, ps, d);
    if k == |ps| {
      LineEnd(env, ps, d, acc, es);
    } else {
      AtFits(ps, k);
      PieceIsRead(env, ps, k, d, acc);
      LineIsRead(env, ps, k + 1, d, Put(acc, es[k]));
      PutAllOne(acc, es, k);
    }
  }

  lemma AtFits(ps: seq<Piece>, k: nat)
    requires k < |ps|
    ensures At(ps, k) <= At(ps, k + 1) <= |LineWords(ps)|
  {
    hide At, LineWords, PieceWords;
    WordsAt(ps, k);
  }

  lemma LineEnd(env: Env, ps: seq<Piece>, d: nat, acc: Acc, es: seq<Effect>)
    requires |es| == |ps|
    ensures PutAll(acc, es[|ps|..]) == acc
    ensures At(ps, |ps|) == |LineWords(ps)| && ParsedFrom(env, LineWords(ps), |LineWords(ps)|, d, acc) == acc
  {
    assert ps[..|ps|] == ps;
  }

  lemma PutGives(acc: Acc, e: Effect, es: seq<Effect>)
    ensures var next, all := Put(acc, e), [e] + es;
      && next.terms + TermsOf(es) == acc.terms + TermsOf(all)
      && next.labels + LabelsOf(es) == acc.labels + LabelsOf(all)
      && next.fields + FieldsOf(es) == acc.fields + FieldsOf(all)
      && (if next.error.Some? then next.error else FirstError(es))
         == if acc.error.Some? then acc.error else FirstError(all)
  {
    hide TermsOf, LabelsOf, FieldsOf, FirstError;
    EffectsSplit(e, es);
    Regroup(acc.terms, if e.Adds? then [e.term] else [], TermsOf(es));
    Regroup(acc.labels, if e.AddsLabel? then [e.sel] else [], LabelsOf(es));
    Regroup(acc.fields, if e.AddsField? then [e.sel] else [], FieldsOf(es));
    assert acc.terms + [] == acc.terms && acc.labels + [] == acc.labels && acc.fields + [] == acc.fields;
  }

  lemma Regroup<T>(a: seq<T>, b: seq<T>, c: seq<T>)
    ensures a + b + c == a + (b + c)
  {
  }

  lemma {:induction false} PutAllGives(acc: Acc, es: seq<Effect>)
    ensures var after := PutAll(acc, es);
      && after.terms == acc.terms + TermsOf(es)
      && after.labels == acc.labels + LabelsOf(es)
      && after.fields == acc.fields + FieldsOf(es)
      && after.error == if acc.error.Some? then acc.error else FirstError(es)
    decreases |es|
  {
    if es != [] {
      hide Put, TermsOf, LabelsOf, FieldsOf, FirstError;
      PutAllGives(Put(acc, es[0]), es[1..]);
      PutGives(acc, es[0], es[1..]);
      assert [es[0]] + es[1..] == es;
    } else {
      assert acc.terms + [] == acc.terms && acc.labels + [] == acc.labels && acc.fields + [] == acc.fields;
    }
  }

  lemma {:induction false} JoinLast(sels: seq<string>, last: string)
    requires sels != []
    ensures JoinSelectors(sels + [last]) == JoinSelectors(sels) + "," + last
  {
    if |sels| == 1 {
      assert (sels + [last])[1..] == [last];
    } else {
      JoinLast(sels[1..], last);
      assert (sels + [last])[1..] == sels[1..] + [last];
      assert sels[0] + "," + (JoinSelectors(sels[1..]) + "," + last) == JoinSelectors(sels) + "," + last;
    }
  }

  lemma {:induction false} CommasJoin(sels: seq<string>)
    ensures Commas(sels) == if sels == [] then None else Some(JoinSelectors(sels))
  {
    if |sels| > 1 {
      var n := |sels| - 1;
      CommasJoin(sels[..n]);
      JoinLast(sels[..n], sels[n]);
      assert sels[..n] + [sels[n]] == sels;
    }
  }

  lemma ClosesAs(env: Env, ps: seq<Piece>, d: nat)
    ensures Close(PutAll(Acc([], [], [], None), LineEffects(env, ps, d))) == LineMeaning(env, ps, d)
  {
    hide PieceMeaning, JoinSelectors, Commas;
    var es := LineEffects(env, ps, d);
    PutAllGives(Acc([], [], [], None), es);
    CommasJoin(LabelsOf(es));
    CommasJoin(FieldsOf(es));
    assert [] + TermsOf(es) == TermsOf(es) && [] + LabelsOf(es) == LabelsOf(es) && [] + FieldsOf(es) == FieldsOf(es);
  }

  lemma WithoutBars(env: Env, tokens: seq<string>, d: nat)
    requires d <= MAX_DEPTH && "||" !in tokens
    ensures Parsed(env, tokens, d) == Close(ParsedFrom(env, tokens, 0, d, Acc([], [], [], None)))
  {
    hide ParsedBranches, ParsedFrom, Close;
  }

  lemma PastTheLimit(env: Env, tokens: seq<string>, d: nat)
    requires d > MAX_DEPTH
    ensures Parsed(env, tokens, d) == Failed(TooDeep)
  {
    hide ParsedBranches, ParsedFrom, Close;
  }

  lemma {:induction false} LineHasNoBars(ps: seq<Piece>)
    requires forall p :: p in ps ==> Writable(p)
    ensures "||" !in LineWords(ps)
  {
    hide Writable, PieceWords;
    if ps != [] {
      PieceHasNoBars(ps[0]);
      LineHasNoBars(ps[1..]);
    }
  }

  lemma PieceHasNoBars(p: Piece)
    requires Writable(p)
    ensures "||" !in PieceWords(p)
  {
    hide PrintBody, TextWord, CompareWord, OpText, WritablePat;
    FirstWord(p);
    if p.Selector? && p.style.Bare? { BareHasNoBar(p.sel); }
    if p.InSet? || p.HalfSet? { BareHasNoBar(p.key); }
  }

  lemma BareHasNoBar(s: string)
    requires BareSelector(s)
    ensures s != "||"
  {
    BarIsNotPlain();
    hide PlainChar;
    assert BareAt(s, 0);
  }

  /** Parsing a printed line at any depth gives its meaning. */
  lemma {:induction false} ParsedLine(env: Env, ps: seq<Piece>, d: nat)
    requires WritableLine(ps)
    ensures Parsed(env, LineWords(ps), d) == if d > MAX_DEPTH then Failed(TooDeep) else LineMeaning(env, ps, d)
    decreases ps, 2
  {
    hide Parsed, ParsedFrom, LineWords, LineMeaning, Close, PutAll, Writable, PieceMeaning;
    if d > MAX_DEPTH {
      PastTheLimit(env, LineWords(ps), d);
    } else {
      LineHasNoBars(ps);
      WithoutBars(env, LineWords(ps), d);
      LineStart(ps);
      LineIsRead(env, ps, 0, d, Acc([], [], [], None));
      assert LineEffects(env, ps, d)[0..] == LineEffects(env, ps, d);
      ClosesAs(env, ps, d);
    }
  }

  lemma LineStart(ps: seq<Piece>)
    ensures At(ps, 0) == 0
  {
    assert ps[..0] == [];
  }

  // ----- sides of `||` ------------------------------------------------------------------------

  function LineLists(b: seq<Line>): (lists: seq<seq<string>>)
    ensures |lists| == |b| && forall k :: 0 <= k < |b| ==> lists[k] == LineWords(b[k].pieces)
  {
    if b == [] then [] else [LineWords(b[0].pieces)] + LineLists(b[1..])
  }

  lemma {:induction false} SplitOrAppend(a: seq<string>, b: seq<string>)
    requires "||" !in a
    ensures SplitOr(a) == [a] && SplitOr(a + ["||"] + b) == [a] + SplitOr(b)
  {
    if a == [] {
      assert a + ["||"] + b == ["||"] + b;
    } else {
      SplitOrAppend(a[1..], b);
      assert (a + ["||"] + b)[1..] == a[1..] + ["||"] + b;
      assert [a[0]] + a[1..] == a;
    }
  }

  lemma {:induction false} SplitOrOfBody(b: seq<Line>)
    requires WritableBody(b)
    ensures SplitOr(BodyWords(b)) == LineLists(b) && ("||" in BodyWords(b) <==> |b| >= 2)
  {
    hide Writable, LineWords;
    assert b[0] in b && WritableLine(b[0].pieces);
    var first := LineWords(b[0].pieces);
    LineHasNoBars(b[0].pieces);
    if |b| == 1 {
      SplitOrAppend(first, []);
      assert BodyWords(b) == first && LineLists(b[1..]) == [];
    } else {
      SplitOrOfBody(b[1..]);
      SplitOrAppend(first, BodyWords(b[1..]));
      assert BodyWords(b) == first + ["||"] + BodyWords(b[1..]);
      assert BodyWords(b)[|first|] == "||";
    }
  }

  lemma BranchesEnd(env: Env, tokens: seq<string>, k: nat, d: nat, done: seq<Term>)
    requires "||" in tokens && k == |SplitOr(tokens)|
    ensures ParsedBranches(env, tokens, k, d, done) == Structured([Any(done)], None, None, None)
  {
  }

  lemma BranchesStep(env: Env, tokens: seq<string>, k: nat, d: nat, done: seq<Term>)
    requires "||" in tokens && k < |SplitOr(tokens)|
    ensures var branch := SplitOr(tokens)[k];
            var s := Parsed(env, branch, d + 1);
            var e := BranchError(branch, s);
            ParsedBranches(env, tokens, k, d, done)
              == if e.Some? then Failed(e.value) else ParsedBranches(env, tokens, k + 1, d, done + [All(s.terms)])
  {
  }

  lemma SideIsRead(env: Env, ps: seq<Piece>, d: nat, s: Structured)
    requires s == if d > MAX_DEPTH then Failed(TooDeep) else LineMeaning(env, ps, d)
    ensures BranchError(LineWords(ps), s) == SideError(env, ps, d)
    ensures SideError(env, ps, d).None? ==> s == LineMeaning(env, ps, d)
  {
    hide LineMeaning, LineWords;
    FirstOfLine(ps);
  }

  lemma SidesOne(env: Env, b: seq<Line>, k: nat, d: nat)
    requires k < |b|
    ensures var e, rest := SideError(env, b[k].pieces, d), SidesMeaning(env, b[k + 1..], d);
            SidesMeaning(env, b[k..], d)
              == if e.Some? then Err(e.value)
                 else if rest.Err? then rest
                 else Ok([All(LineMeaning(env, b[k].pieces, d).terms)] + rest.value)
  {
    hide SideError, LineMeaning;
    assert b[k..][0] == b[k] && b[k..][1..] == b[k + 1..];
  }

  lemma {:induction false} ParsedSides(env: Env, b: seq<Line>, k: nat, d: nat, done: seq<Term>)
    requires WritableBody(b) && "||" in BodyWords(b) && SplitOr(BodyWords(b)) == LineLists(b)
    requires k <= |b|
    ensures ParsedBranches(env, BodyWords(b), k, d, done)
         == match SidesMeaning(env, b[k..], d + 1)
            case Err(e) => Failed(e)
            case Ok(ts) => Structured([Any(done + ts)], None, None, None)
    decreases b, 1, |b| - k
  {
    hide Parsed, ParsedBranches, BodyWords, LineWords, SideError, LineMeaning, BranchError, WritableLine, SidesMeaning;
    if k == |b| {
      BranchesEnd(env, BodyWords(b), k, d, done);
      NoSides(env, b, d + 1, done);
    } else {
      assert b[k] in b;
      var ps := b[k].pieces;
      ParsedLine(env, ps, d + 1);
      BranchesStep(env, BodyWords(b), k, d, done);
      SideIsRead(env, ps, d + 1, Parsed(env, LineWords(ps), d + 1));
      SidesOne(env, b, k, d + 1);
      if SideError(env, ps, d + 1).None? {
        var term := All(LineMeaning(env, ps, d + 1).terms);
        ParsedSides(env, b, k + 1, d, done + [term]);
        var rest := SidesMeaning(env, b[k + 1..], d + 1);
        if rest.Ok? { assert done + [term] + rest.value == done + ([term] + rest.value); }
      }
    }
  }

  lemma NoSides(env: Env, b: seq<Line>, d: nat, done: seq<Term>)
    ensures SidesMeaning(env, b[|b|..], d) == Ok([]) && done + [] == done
  {
  }

  /** Parsing a printed filter at any depth gives its meaning. */
  lemma {:induction false} ParsedBody(env: Env, b: seq<Line>, d: nat)
    requires WritableBody(b)
    ensures Parsed(env, BodyWords(b), d) == BodyMeaning(env, b, d)
    decreases b, 3
  {
    hide ParsedBranches, ParsedFrom, LineMeaning, SidesMeaning, LineWords, WritableLine, Close;
    if d > MAX_DEPTH {
      PastTheLimit(env, BodyWords(b), d);
    } else {
      SplitOrOfBody(b);
      assert b[0] in b;
      if |b| == 1 {
        ParsedLine(env, b[0].pieces, d);
        assert BodyWords(b) == LineWords(b[0].pieces);
      } else {
        ParsedSides(env, b, 0, d, []);
        assert b[0..] == b;
        var sides := SidesMeaning(env, b, d + 1);
        if sides.Ok? { assert [] + sides.value == sides.value; }
      }
    }
  }

  // ----- the whole input ------------------------------------------------------------------

  ghost predicate SolidEdges(s: string) {
    s != "" && !IsWhitespace(s[0]) && !IsWhitespace(s[|s| - 1])
  }

  lemma MarkersEdge(negate: bool, onLabels: bool, text: string)
    requires SolidEdges(text)
    ensures SolidEdges(Markers(negate, onLabels) + text)
  {
    var w := Markers(negate, onLabels) + text;
    assert w[|w| - 1] == text[|text| - 1];
  }

  lemma PatEdges(pat: Pat)
    requires WritablePat(pat)
    ensures SolidEdges(PatText(pat))
  {
    match pat
    case Quote(_) =>
    case Head(text) => if text != "" { assert text[|text| - 1] in text; }
    case Expr(_) =>
    case Loose(text) => if text != "" { assert text[|text| - 1] in text; }
    case OneOf(words) =>
      assert words[0] in words && words[0][0] in words[0];
      BarsEdge(words);
    case Word(text) => assert text[0] in text && text[|text| - 1] in text;
  }

  lemma {:induction false} BarsEdge(words: seq<string>)
    requires words != [] && forall w :: w in words ==> WordText(w)
    ensures SolidEdges(Bars(words))
  {
    hide PlainChar, IsWhitespace;
    PlainIsSolid();
    var w := words[0];
    assert w in words && w[0] in w && w[|w| - 1] in w;
    if |words| > 1 {
      BarsEdge(words[1..]);
      var rest := Bars(words[1..]);
      assert Bars(words)[|Bars(words)| - 1] == rest[|rest| - 1];
    }
  }

  lemma PlainIsSolid()
    ensures forall c :: PlainChar(c) ==> !IsWhitespace(c)
  {
  }

  lemma BareEdges(s: string)
    requires s != "" && BareText(s)
    ensures SolidEdges(s)
  {
    assert BareAt(s, 0) && BareAt(s, |s| - 1);
  }

  lemma KeyEdges(key: string, op: Op, more: string)
    requires IsKey(key) && (more != "" ==> SolidEdges(more))
    ensures SolidEdges(key + OpText(op) + more)
  {
    var w := key + OpText(op) + more;
    assert w[0] == key[0] && key[0] in key;
    assert w[|w| - 1] == if more == "" then OpText(op)[|OpText(op)| - 1] else more[|more| - 1];
  }

  lemma WordEdges(p: Piece, j: nat)
    requires Writable(p) && j < |PieceWords(p)|
    ensures SolidEdges(PieceWords(p)[j])
  {
    hide PatText, WritablePat, PrintBody, IsWhitespace, OpText;
    PlainEdges();
    match p
    case Text(negate, onLabels, pat) =>
      PatEdges(pat);
      MarkersEdge(negate, onLabels, PatText(pat));
    case Compare(key, op, raw, style) =>
      if style.Bare? { BareEdges(raw); }
      KeyEdges(key, op, Dressed(raw, style));
    case NoValue(key, op) =>
      KeyEdges(key, op, "");
      assert key + OpText(op) + "" == key + OpText(op);
    case Selector(flag, sel, style) => if style.Bare? { BareEdges(sel); }
    case Attached(flag, sel) =>
      var w := FlagText(flag) + sel;
      assert BareAt(w, |w| - 1);
    case InSet(key, _, _) => BareEdges(key);
    case HalfSet(key, _) => BareEdges(key);
    case _ =>
  }

  lemma PlainEdges()
    ensures !IsWhitespace('\'')
    ensures !IsWhitespace('"') && !IsWhitespace('-') && !IsWhitespace('l') && !IsWhitespace('f') && !IsWhitespace('/')
    ensures !IsWhitespace('i') && !IsWhitespace('n') && !IsWhitespace('(') && !IsWhitespace(')') && !IsWhitespace('!')
    ensures !IsWhitespace('&') && !IsWhitespace('|')
    ensures forall c :: PlainChar(c) ==> !IsWhitespace(c)
  {
  }

  lemma {:induction false} LineEdges(ps: seq<Piece>)
    requires forall p :: p in ps ==> Writable(p)
    ensures forall w :: w in LineWords(ps) ==> SolidEdges(w)
  {
    hide Writable, PieceWords, SolidEdges;
    if ps != [] {
      forall j | 0 <= j < |PieceWords(ps[0])| ensures SolidEdges(PieceWords(ps[0])[j]) {
        WordEdges(ps[0], j);
      }
      LineEdges(ps[1..]);
    }
  }

  lemma {:induction false} BodyEdges(b: seq<Line>)
    requires forall x :: x in b ==> WritableLine(x.pieces)
    ensures forall w :: w in BodyWords(b) ==> SolidEdges(w)
  {
    hide Writable, LineWords;
    if b != [] {
      assert b[0] in b;
      LineEdges(b[0].pieces);
      BodyEdges(b[1..]);
    }
  }

  lemma {:induction false} SpacedEdges(ws: seq<string>)
    requires ws != [] && forall w :: w in ws ==> SolidEdges(w)
    ensures SolidEdges(Spaced(ws))
  {
    hide IsWhitespace;
    assert ws[0] in ws;
    if |ws| > 1 {
      SpacedEdges(ws[1..]);
      var rest := Spaced(ws[1..]);
      assert Spaced(ws)[|Spaced(ws)| - 1] == rest[|rest| - 1];
    }
  }

  /** A printed filter has nothing to trim. */
  lemma PrintedIsTrimmed(b: seq<Line>)
    requires WritableBody(b)
    ensures Trim(PrintBody(b)) == PrintBody(b)
  {
    hide BodyWords, WritableLine, IsWhitespace;
    BodyEdges(b);
    if BodyWords(b) != [] { SpacedEdges(BodyWords(b)); }
  }

  predicate Blank(s: string) { forall c :: c in s ==> IsWhitespace(c) }

  lemma {:induction false} StartTrimmed(a: string, s: string)
    requires Blank(a)
    ensures TrimStart(a + s) == TrimStart(s)
  {
    hide IsWhitespace;
    if a == "" {
      assert a + s == s;
    } else {
      assert a[0] in a && (a + s)[1..] == a[1..] + s;
      StartTrimmed(a[1..], s);
    }
  }

  lemma {:induction false} EndTrimmed(s: string, c: string)
    requires Blank(c)
    ensures TrimEnd(s + c) == TrimEnd(s)
  {
    hide IsWhitespace;
    if c == "" {
      assert s + c == s;
    } else {
      var n := |c| - 1;
      assert c[n] in c && (s + c)[..|s + c| - 1] == s + c[..n];
      EndTrimmed(s, c[..n]);
    }
  }

  lemma {:induction false} StartBeforeEnd(s: string, c: string)
    requires Blank(c)
    ensures if Blank(s) then TrimStart(s) == "" else TrimStart(s + c) == TrimStart(s) + c
  {
    hide IsWhitespace;
    if s != "" {
      assert s == [s[0]] + s[1..] && (s + c)[0] == s[0] && (s + c)[1..] == s[1..] + c;
      StartBeforeEnd(s[1..], c);
    }
  }

  lemma TrimPadded(a: string, s: string, c: string)
    requires Blank(a) && Blank(c)
    ensures Trim(a + s + c) == Trim(s)
  {
    hide IsWhitespace;
    assert a + s + c == a + (s + c);
    StartTrimmed(a, s + c);
    StartBeforeEnd(s, c);
    if Blank(s) {
      StartBeforeEnd(s + c, "");
    } else {
      EndTrimmed(TrimStart(s), c);
    }
  }

  /** Blanks around a filter make no difference. */
  lemma PaddingIsIgnored(env: Env, a: string, s: string, c: string)
    requires Blank(a) && Blank(c)
    ensures Parse(env, a + s + c) == Parse(env, s)
  {
    hide Trim, Blank;
    TrimPadded(a, s, c);
  }

  // ----- what is left open ----------------------------------------------------------------------

  /** The quote that is open after the first `n` characters. */
  function QuoteAt(s: string, n: nat): (q: Option<char>)
    requires n <= |s|
    ensures q.Some? ==> q.value == '"' || q.value == '\''
  {
    if n == 0 then None
    else
      var before, c := QuoteAt(s, n - 1), s[n - 1];
      if before.Some? then (if before.value == c then None else before)
      else if c == '"' || c == '\'' then Some(c) else None
  }

  /** How many parentheses outside quotes are open after the first `n` characters. */
  function LevelAt(s: string, n: nat): int
    requires n <= |s|
  {
    if n == 0 then 0
    else
      var before, c := LevelAt(s, n - 1), s[n - 1];
      if QuoteAt(s, n - 1).Some? then before
      else if c == '(' then before + 1
      else if c == ')' then before - 1
      else before
  }

  predicate NeverBelow(s: string, i: nat, n: nat)
    requires n <= |s|
  {
    forall k :: i <= k <= n ==> LevelAt(s, k) >= 0
  }

  ghost predicate Tracks(s: string, i: nat, st: Tok)
    requires i <= |s|
  {
    st.quote == QuoteAt(s, i) && st.depth == LevelAt(s, i)
  }

  lemma AdvanceFollows(s: string, i: nat, st: Tok)
    requires '/' !in s && i < |s| && Tracks(s, i, st)
    ensures var r := Advance(s, i, st);
            if LevelAt(s, i + 1) < 0 then r == Err(UnexpectedClose)
            else
              && r.Ok? && Tracks(s, r.value.0, r.value.1) && NeverBelow(s, i, r.value.0)
              && (r.value.0 == i + 1 || (r.value.0 == i + 2 && s[i] == s[i + 1] && (s[i] == '&' || s[i] == '|')))
              && (IsWhitespace(s[i]) && st.quote.None? && st.depth == 0 ==> r.value.1.token == "")
  {
    hide RegexEndFrom, AtPatternStart, IsWhitespace;
    PlainEdges();
    assert s[i] in s;
    assert NeverBelow(s, i, i + 1) || LevelAt(s, i + 1) < 0;
    if i + 1 < |s| {
      var q, n := QuoteAt(s, i + 2), LevelAt(s, i + 2);
      assert s[i + 1] == '&' || s[i + 1] == '|' ==> n == LevelAt(s, i + 1) && (QuoteAt(s, i + 1) == q);
    }
  }

  /** What the tokenizer makes of the parentheses and quotes of a text without slashes. */
  lemma {:induction false} ScanLevels(s: string, i: nat, st: Tok)
    requires '/' !in s && i <= |s| && Tracks(s, i, st)
    ensures var r := Scan(s, i, st);
            if !NeverBelow(s, i, |s|) then r == Err(UnexpectedClose)
            else if LevelAt(s, |s|) > 0 then r == Err(Unclosed)
            else if QuoteAt(s, |s|).None? then r.Ok?
            else r.Ok? || r == Err(Unclosed)
    decreases |s| - i
  {
    hide Advance, QuoteAt, LevelAt;
    if i == |s| {
      assert NeverBelow(s, i, |s|) && !st.quote.Some? == QuoteAt(s, |s|).None?;
    } else {
      AdvanceFollows(s, i, st);
      assert NeverBelow(s, i, |s|) ==> LevelAt(s, i + 1) >= 0;
      var r := Advance(s, i, st);
      if r.Ok? {
        ScanLevels(s, r.value.0, r.value.1);
        assert NeverBelow(s, i, |s|) == NeverBelow(s, r.value.0, |s|);
      }
    }
  }

  /** A text without slashes is refused for a `)` exactly when one stands outside quotes with
      nothing to close; else for what is left open when a parenthesis is; and when neither
      a parenthesis nor a quote is left open it is taken. */
  lemma BalanceDecides(s: string)
    requires '/' !in s
    ensures if !NeverBelow(s, 0, |s|) then Tokens(s) == Err(UnexpectedClose)
            else if LevelAt(s, |s|) > 0 then Tokens(s) == Err(Unclosed)
            else if QuoteAt(s, |s|).None? then Tokens(s).Ok?
            else Tokens(s).Ok? || Tokens(s) == Err(Unclosed)
  {
    hide Scan, NeverBelow, Advance;
    assert Tracks(s, 0, FRESH);
    ScanLevels(s, 0, FRESH);
    assert Tokens(s) == Scan(s, 0, FRESH);
  }

  /** Past a space outside quotes and parentheses a new word starts. */
  lemma {:induction false} ScanToSpace(s: string, i: nat, st: Tok, n: nat) returns (reached: Tok)
    requires '/' !in s && i < n <= |s| && Tracks(s, i, st) && NeverBelow(s, i, n)
    requires IsWhitespace(s[n - 1]) && QuoteAt(s, n - 1).None? && LevelAt(s, n - 1) == 0
    ensures Scan(s, i, st) == Scan(s, n, reached)
    ensures reached.token == "" && reached.quote.None? && reached.depth == 0
    decreases n - i
  {
    hide Advance, QuoteAt, LevelAt, IsWhitespace;
    PlainEdges();
    AdvanceFollows(s, i, st);
    assert LevelAt(s, i + 1) >= 0;
    var r := Advance(s, i, st).value;
    SpaceKeepsLevels(s, n);
    if r.0 < n { reached := ScanToSpace(s, r.0, r.1, n); } else { reached := r.1; }
  }

  lemma SpaceKeepsLevels(s: string, n: nat)
    requires 0 < n <= |s| && IsWhitespace(s[n - 1])
    ensures QuoteAt(s, n - 1).None? ==> QuoteAt(s, n).None? && LevelAt(s, n) == LevelAt(s, n - 1)
  {
    hide IsWhitespace;
    PlainEdges();
  }

  /** A quote still open at the end is a pattern being typed when a double quote starts the
      word, behind `!` and `label:` or not; it is an error anywhere else in the word. */
  lemma OpenQuote(a: string, head: string, q: char, text: string)
    requires '/' !in a + (head + [q] + text) && (q == '"' || q == '\'') && q !in text
    requires forall c :: c in head ==> PlainChar(c)
    requires NeverBelow(a, 0, |a|)
    requires a != "" ==>
               IsWhitespace(a[|a| - 1]) && QuoteAt(a, |a| - 1).None? && LevelAt(a, |a| - 1) == 0
    ensures var r, word := Tokens(a + (head + [q] + text)), head + [q] + text;
            if q == '"' && head in {"", "!", "label:", "!label:"}
            then r.Ok? && r.value != [] && r.value[|r.value| - 1] == word
            else r == Err(Unclosed)
  {
    hide Scan, PlainChar, IsWhitespace, NeverBelow, LevelAt, QuoteAt, Strip;
    var s, word := a + (head + [q] + text), head + [q] + text;
    var st := NewWord(a, word);
    OccursAfter(a, word);
    ScanOpenWord(s, |a|, st, head, q, text);
    WordShown(head, q, text);
    assert st.Put(word).token == word;
    assert Tokens(s) == Finish(st.Put(word).(quote := Some(q)));
  }

  lemma ScanOpenWord(input: string, i: nat, st: Tok, head: string, q: char, text: string)
    requires (q == '"' || q == '\'') && q !in text && forall c :: c in head ==> PlainChar(c)
    requires Occurs(input, i, head + [q] + text) && i + |head| + 1 + |text| == |input| && st.quote.None?
    ensures Scan(input, i, st) == Finish(st.Put(head + [q] + text).(quote := Some(q)))
  {
    hide Scan, Advance, PlainChar, Finish;
    OccursSplit(input, i, head + [q], text);
    OccursSplit(input, i, head, [q]);
    var j := i + |head|;
    ScanPlain(input, i, st, head);
    assert input[j] == input[j..j + 1][0] == q;
    var open := st.Put(head).Put([q]).(quote := Some(q));
    AdvanceQuote(input, j, st.Put(head));
    ScanStep(input, j, st.Put(head));
    ScanInQuotes(input, j + 1, open, text);
    assert open.Put(text) == st.Put(head + [q] + text).(quote := Some(q));
    ScanLast(input, open.Put(text));
  }

  lemma OccursAfter(a: string, word: string)
    ensures Occurs(a + word, |a|, word)
  {
  }

  /** The tokenizer after `a`, at the start of a word. */
  lemma NewWord(a: string, word: string) returns (st: Tok)
    requires '/' !in a + word && NeverBelow(a, 0, |a|)
    requires a != "" ==>
               IsWhitespace(a[|a| - 1]) && QuoteAt(a, |a| - 1).None? && LevelAt(a, |a| - 1) == 0
    ensures Scan(a + word, 0, FRESH) == Scan(a + word, |a|, st)
    ensures st.token == "" && st.quote.None? && st.depth == 0
  {
    hide Scan, IsWhitespace;
    var s := a + word;
    st := FRESH;
    if a != "" {
      forall n: int | 0 <= n <= |a| ensures LevelAt(s, n) == LevelAt(a, n) && QuoteAt(s, n) == QuoteAt(a, n) {
        LevelsOfStart(a, word, n);
      }
      st := ScanToSpace(s, 0, FRESH, |a|);
    }
  }

  lemma AdvanceQuote(input: string, i: nat, st: Tok)
    requires i < |input| && (input[i] == '"' || input[i] == '\'') && st.quote.None?
    ensures Advance(input, i, st) == Ok((i + 1, st.Put([input[i]]).(quote := Some(input[i]))))
  {
  }

  lemma ScanLast(input: string, st: Tok)
    ensures Scan(input, |input|, st) == Finish(st)
  {
  }

  /** When a word with an open quote shows the quote first. */
  lemma WordShown(head: string, q: char, text: string)
    requires (q == '"' || q == '\'') && forall c :: c in head ==> PlainChar(c)
    ensures var word := head + [q] + text;
            var bare := Strip("!", word);
            var rest := if bare.Some? then bare.value else word;
            var labelled := Strip("label:", rest);
            var shown := if labelled.Some? then labelled.value else rest;
            "\"" <= shown <==> q == '"' && head in {"", "!", "label:", "!label:"}
  {
    hide IsWhitespace, Strip;
    BangShown(head, [q] + text);
    var h := if head != "" && head[0] == '!' then head[1..] else head;
    assert forall c :: c in h ==> c in head;
    LabelShown(h, q, text);
    assert head + [q] + text == head + ([q] + text) && h + [q] + text == h + ([q] + text);
    assert head in {"", "!", "label:", "!label:"} <==> h in {"", "label:"} by {
      assert head == (if head != "" && head[0] == '!' then "!" else "") + h;
      assert "!" + "" == "!" && "!" + "label:" == "!label:" && "label:"[0] != '!';
    }
  }

  lemma BangShown(head: string, more: string)
    requires more != "" && more[0] != '!'
    ensures Strip("!", head + more)
         == if head != "" && head[0] == '!' then Some(head[1..] + more) else None
  {
    var word := head + more;
    assert word[0] == if head == "" then more[0] else head[0];
    if word[0] == '!' { assert word == "!" + (head[1..] + more); } else { NotPrefix("!", word); }
  }

  lemma StartsWithQuote(s: string)
    requires s != ""
    ensures "\"" <= s <==> s[0] == '"'
  {
    if s[0] != '"' { NotPrefix("\"", s); }
  }

  lemma LabelShown(h: string, q: char, text: string)
    requires (q == '"' || q == '\'') && '"' !in h
    ensures var rest := h + ([q] + text);
            var labelled := Strip("label:", rest);
            var shown := if labelled.Some? then labelled.value else rest;
            "\"" <= shown <==> q == '"' && h in {"", "label:"}
  {
    var rest := h + ([q] + text);
    if |h| < 6 {
      assert rest[|h|] == q && "label:"[|h|] != q;
    } else {
      assert rest[..6] == h[..6] && h == h[..6] + h[6..];
    }
    var labelled := Strip("label:", rest);
    var k := if labelled.Some? then h[6..] else h;
    var shown := if labelled.Some? then labelled.value else rest;
    assert shown == k + ([q] + text) && shown[0] == if k == "" then q else k[0];
    assert k != "" ==> k[0] in h;
    StartsWithQuote(shown);
    if labelled.Some? {
      assert h[..6] == "label:" && (k == "" <==> h == "label:");
    } else {
      assert h != "label:";
    }
  }

  lemma {:induction false} LevelsOfStart(a: string, more: string, n: nat)
    requires n <= |a|
    ensures QuoteAt(a + more, n) == QuoteAt(a, n) && LevelAt(a + more, n) == LevelAt(a, n)
  {
    if n > 0 { LevelsOfStart(a, more, n - 1); }
  }

  lemma {:induction false} WordsKeepStart(s: string, word: string)
    requires word != ""
    ensures WordsFrom(s, word) != [] && word <= WordsFrom(s, word)[0]
  {
    if s != "" && !IsWhitespace(s[0]) {
      WordsKeepStart(s[1..], word + [s[0]]);
      assert word <= word + [s[0]];
    }
  }

  /** A filter that starts with a group, or with `!` before one, is refused for the first `)`
      with nothing to close, and else for what it leaves open. */
  lemma UnbalancedGroupIsRefused(env: Env, s: string)
    requires var t := Trim(s); '/' !in t && ("(" <= t || "!(" <= t)
    ensures var t := Trim(s);
      && (!NeverBelow(t, 0, |t|) ==> Parse(env, s) == Failed(UnexpectedClose))
      && (NeverBelow(t, 0, |t|) && LevelAt(t, |t|) > 0 ==> Parse(env, s) == Failed(Unclosed))
  {
    hide Tokens, NeverBelow, LevelAt, QuoteAt, WordsFrom, IsWhitespace, SplitCmp, Trim, AttachedSelector, IsRegex;
    var t := Trim(s);
    BalanceDecides(t);
    StartsWithWord(t);
  }

  lemma StartsWithWord(t: string)
    requires "(" <= t || "!(" <= t
    ensures exists w :: w in Words(t) && Marks(w)
  {
    hide IsWhitespace, SplitCmp, AttachedSelector, IsRegex;
    PlainEdges();
    var c := t[0];
    assert c == if "(" <= t then '(' else '!';
    WordsKeepStart(t[1..], [c]);
    assert Words(t) == WordsFrom(t[1..], "" + [c]) && "" + [c] == [c];
    var w := Words(t)[0];
    assert w in Words(t) && w[0] == c;
    assert "(" <= w || "!" <= w;
  }

  /** A plain word and, past a `)` or an apostrophe, more of the same. */
  predicate OddWord(w: string, more: string) {
    && PlainStart(w) && WordText(w)
    && more != "" && (more[0] == ')' || more[0] == '\'') && forall c :: c in more[1..] ==> WordChar(c)
  }

  lemma OddChars(w: string, more: string)
    requires OddWord(w, more)
    ensures forall c :: c in w + more ==> WordChar(c) || c == ')' || c == '\''
    ensures forall c :: c in w + more ==> !IsWhitespace(c) && NoOpChar(c) && c != '/' && c != '|'
  {
    hide IsWhitespace;
    PlainEdges();
    assert more == [more[0]] + more[1..];
  }

  /** A `)` or an apostrophe past the start of a plain word leaves it plain text. */
  lemma OddWordIsText(env: Env, w: string, more: string)
    requires OddWord(w, more)
    ensures Parse(env, w + more) == Structured([TextTerm(false, Literal(w + more))], None, None, None)
  {
    hide Tokens, Words, Marks, Trim, PatternOf, PlainTerms, OddWord;
    OddIsNoTokens(w, more);
    OddIsTrimmed(w, more);
    OddIsUnmarked(w, more);
    OddIsLiteral(env, w, more);
    PlainOne(env, w + more, Acc([], [], [], None));
  }

  lemma PlainOne(env: Env, word: string, acc: Acc)
    ensures PlainTerms(env, [word], acc)
         == var pat := PatternOf(env, word);
            if pat.Ok? then acc.Add(TextTerm(false, pat.value)) else acc.Fail(pat.error)
  {
    hide PatternOf;
    assert [word][1..] == [];
  }

  lemma {:induction false} PlainIsLevel(w: string, n: nat)
    requires n <= |w| && forall c :: c in w ==> PlainChar(c)
    ensures QuoteAt(w, n).None? && LevelAt(w, n) == 0
  {
    hide IsWhitespace;
    if n > 0 {
      PlainIsLevel(w, n - 1);
      assert w[n - 1] in w;
    }
  }

  lemma OddIsNoTokens(w: string, more: string)
    requires OddWord(w, more)
    ensures Tokens(w + more).Err?
  {
    hide IsWhitespace, Tokens;
    OddChars(w, more);
    var s := w + more;
    PlainIsLevel(w, |w|);
    LevelsOfStart(w, more, |w|);
    assert s[|w|] == more[0] && more == [more[0]] + more[1..];
    if more[0] == ')' {
      assert LevelAt(s, |w| + 1) == -1;
      BalanceDecides(s);
    } else {
      assert "" + (w + ['\''] + more[1..]) == s && '\'' !in more[1..];
      OpenQuote("", w, '\'', more[1..]);
    }
  }

  lemma OddIsTrimmed(w: string, more: string)
    requires OddWord(w, more)
    ensures Trim(w + more) == w + more && Words(w + more) == [w + more]
  {
    hide IsWhitespace, OddWord;
    OddChars(w, more);
    assert w != "" && more != "" by { OddStart(w, more); }
    var s := w + more;
    assert s[0] in s && s[|s| - 1] in s && Spaceless(s);
    WordsFromWord(s, 0, "");
    assert s[0..] + "" == s && s[..0] == "" && WordsFrom("", s) == [s];
  }

  /** The first character of such a word. */
  lemma OddStart(w: string, more: string)
    requires OddWord(w, more)
    ensures w != "" && more != "" && Unprefixed(w + more) && (w + more)[0] != '!' && (w + more)[0] != '('
    ensures !("label:" <= w + more) && w + more !in {"&&", "||", "-l", "-f"}
  {
    hide IsWhitespace;
    StartsPlainly(w);
    var s := w + more;
    assert s[0] == w[0] && s[|w|] == more[0];
    NotLabelled(w, more);
    assert forall k :: 0 <= k < 2 ==>
      "&&"[k] != more[0] && "||"[k] != more[0] && "-l"[k] != more[0] && "-f"[k] != more[0];
  }

  lemma OddIsUnmarked(w: string, more: string)
    requires OddWord(w, more)
    ensures !Marks(w + more)
  {
    hide KeyEnd, SplitOp, SplitCmp, AttachedSelector, OddWord, IsWhitespace;
    var s := w + more;
    OddStart(w, more);
    OddChars(w, more);
    NoCmp(s);
    NotPrefix("!", s);
    NotPrefix("(", s);
    NotPrefix("\"", s);
    NoAttached(s);
  }

  lemma NotLabelled(w: string, more: string)
    requires !("label:" <= w) && more != "" && (more[0] == ')' || more[0] == '\'')
    ensures !("label:" <= w + more)
  {
    if |w| >= 6 { assert (w + more)[..6] == w[..6]; } else { assert (w + more)[|w|] != "label:"[|w|]; }
  }

  lemma NoAttached(s: string)
    requires '=' !in s
    ensures AttachedSelector(s, "-l").None? && AttachedSelector(s, "-f").None?
  {
  }

  lemma OddIsLiteral(env: Env, w: string, more: string)
    requires OddWord(w, more)
    ensures PatternOf(env, w + more) == Ok(Literal(w + more))
  {
    hide IsRegex, OddWord, IsWhitespace;
    OddStart(w, more);
    OddChars(w, more);
    NoMarker(w + more);
  }

  // ----- filters without any marker ----------------------------------------------------------

  /** Text whose token alone does not make the filter a structured one. */
  predicate Unmarked(p: Piece) { p.Text? && !p.negate && !p.onLabels && !p.pat.Quote? && !p.pat.Expr? }

  lemma PieceMarks(p: Piece) returns (w: string)
    requires Writable(p) && !Unmarked(p)
    ensures w in PieceWords(p) && Marks(w)
  {
    hide PrintBody, KeyEnd, SplitOp, WritablePat, OpText;
    w := PieceWords(p)[0];
    match p
    case Text(negate, onLabels, pat) => TextMarks(negate, onLabels, pat);
    case Compare(key, op, raw, style) =>
      DressedIsUnquoted(raw, style);
      SplitCmpOfPrinted(key, op, Dressed(raw, style));
    case NoValue(key, op) =>
      assert key + OpText(op) + "" == key + OpText(op);
      SplitCmpOfPrinted(key, op, "");
    case Attached(flag, sel) => StripOwn(FlagText(flag), sel);
    case Group(negate, body) =>
      assert GroupWord(negate, PrintBody(body)) == (if negate then "!(" else "(") + (PrintBody(body) + ")");
    case _ =>
  }

  lemma TextMarks(negate: bool, onLabels: bool, pat: Pat)
    requires !Unmarked(Text(negate, onLabels, pat))
    ensures Marks(TextWord(negate, onLabels, pat))
  {
    hide SplitCmp, AttachedSelector;
    var text := PatText(pat);
    var inner := (if onLabels then "label:" else "") + text;
    assert TextWord(negate, onLabels, pat) == (if negate then "!" else "") + inner;
    if negate {
      StripOwn("!", inner);
    } else if onLabels {
      assert inner == "label:" + text;
      StripOther("!", inner);
    } else {
      assert inner == text;
      StripOther("!", inner);
    }
  }

  lemma {:induction false} UnmarkedLine(ps: seq<Piece>)
    requires forall p :: p in ps ==> Writable(p)
    requires forall w :: w in LineWords(ps) ==> !Marks(w)
    ensures forall p :: p in ps ==> Unmarked(p)
  {
    hide Writable, PieceWords, Marks, Unmarked;
    if ps != [] {
      if !Unmarked(ps[0]) { var w := PieceMarks(ps[0]); }
      UnmarkedLine(ps[1..]);
    }
  }

  predicate Spaceless(w: string) { w != "" && forall c :: c in w ==> !IsWhitespace(c) }

  lemma {:induction false} WordsFromWord(w: string, i: nat, rest: string)
    requires i <= |w| && Spaceless(w)
    ensures WordsFrom(w[i..] + rest, w[..i]) == WordsFrom(rest, w)
    decreases |w| - i
  {
    hide IsWhitespace;
    if i == |w| {
      assert w[i..] + rest == rest && w[..i] == w;
    } else {
      assert (w[i..] + rest)[0] == w[i] && w[i] in w && (w[i..] + rest)[1..] == w[i + 1..] + rest;
      assert w[..i] + [w[i]] == w[..i + 1];
      WordsFromWord(w, i + 1, rest);
    }
  }

  lemma SpacelessIsNotEmpty(w: string)
    ensures Spaceless(w) ==> w != ""
  {
  }

  lemma {:induction false} WordsOfSpaced(ws: seq<string>)
    requires forall w :: w in ws ==> Spaceless(w)
    ensures Words(Spaced(ws)) == ws
  {
    if ws != [] {
      hide Spaceless;
      var w, rest := ws[0], Spaced(ws[1..]);
      SpacelessIsNotEmpty(w);
      assert w in ws && ws == [w] + ws[1..];
      if |ws| == 1 {
        WordsFromWord(w, 0, "");
        assert w[0..] + "" == w && Spaced(ws) == w && w[..0] == "";
      } else {
        WordsOfSpaced(ws[1..]);
        WordsFromWord(w, 0, " " + rest);
        assert w[0..] + (" " + rest) == Spaced(ws) && w[..0] == "" && (" " + rest)[1..] == rest;
      }
    }
  }

  lemma UnmarkedWord(p: Piece)
    requires Writable(p) && Unmarked(p)
    ensures PieceWords(p) == [PatText(p.pat)] && Spaceless(PatText(p.pat))
  {
    hide Bars, IsWhitespace, PlainChar;
    PlainEdges();
    HeadsHaveNoSpace();
    assert Markers(false, false) + PatText(p.pat) == PatText(p.pat);
    match p.pat
    case Head(text) =>
    case Loose(text) =>
    case OneOf(words) => BarsHaveNoSpace(words);
    case Word(text) => WordHasNoBar(text);
  }

  lemma {:induction false} BarsHaveNoSpace(words: seq<string>)
    requires words != [] && forall w :: w in words ==> WordText(w)
    ensures Spaceless(Bars(words))
  {
    hide PlainChar, IsWhitespace;
    PlainEdges();
    assert words[0] in words && WordText(words[0]);
    if |words| > 1 { BarsHaveNoSpace(words[1..]); }
  }

  lemma HeadsHaveNoSpace()
    ensures !IsWhitespace('^') && !IsWhitespace('~')
  {
  }

  lemma {:induction false} UnmarkedWords(ps: seq<Piece>)
    requires forall p :: p in ps ==> Writable(p) && Unmarked(p)
    ensures |LineWords(ps)| == |ps|
    ensures forall k :: 0 <= k < |ps| ==> ps[k].Text? && LineWords(ps)[k] == PatText(ps[k].pat)
    ensures forall w :: w in LineWords(ps) ==> Spaceless(w)
  {
    hide Writable, PatText, Spaceless;
    if ps != [] {
      assert ps[0] in ps;
      UnmarkedWord(ps[0]);
      UnmarkedWords(ps[1..]);
    }
  }

  lemma {:induction false} PlainTermsPut(env: Env, ps: seq<Piece>, d: nat, k: nat, acc: Acc)
    requires k <= |ps| && |LineWords(ps)| == |ps| && forall p :: p in ps ==> Writable(p) && Unmarked(p)
    requires forall j :: 0 <= j < |ps| ==> ps[j].Text? && LineWords(ps)[j] == PatText(ps[j].pat)
    ensures PlainTerms(env, LineWords(ps)[k..], acc) == PutAll(acc, LineEffects(env, ps, d)[k..])
    decreases |ps| - k
  {
    hide LineWords, LineEffects, PatternOf, PatMeaning, PatText, PutAll, WritablePat;
    var es, ws := LineEffects(env, ps, d), LineWords(ps);
    if k == |ps| {
      PutAllNone(acc, es);
    } else {
      assert ps[k] in ps && es[k] == TextMeaning(env, false, false, ps[k].pat);
      PatternOfText(env, ps[k].pat);
      assert ws[k..][0] == ws[k] && ws[k..][1..] == ws[k + 1..];
      PlainTermsPut(env, ps, d, k + 1, Put(acc, es[k]));
      PutAllOne(acc, es, k);
    }
  }

  lemma PutAllNone(acc: Acc, es: seq<Effect>)
    ensures PutAll(acc, es[|es|..]) == acc
  {
  }

  lemma PlainFilter(env: Env, ps: seq<Piece>)
    requires WritableLine(ps) && forall p :: p in ps ==> Unmarked(p)
    ensures Words(Spaced(LineWords(ps))) == LineWords(ps)
    ensures Close(PlainTerms(env, LineWords(ps), Acc([], [], [], None))) == LineMeaning(env, ps, 0)
  {
    hide LineWords, LineEffects, LineMeaning, Close, PutAll, Spaced, Writable, Unmarked;
    UnmarkedWords(ps);
    WordsOfSpaced(LineWords(ps));
    PlainTermsPut(env, ps, 0, 0, Acc([], [], [], None));
    assert LineWords(ps)[0..] == LineWords(ps) && LineEffects(env, ps, 0)[0..] == LineEffects(env, ps, 0);
    ClosesAs(env, ps, 0);
  }

  /** A filter none of whose words is a marker is one line of plain text. */
  lemma MarkedOrPlain(b: seq<Line>)
    requires WritableBody(b) && forall w :: w in BodyWords(b) ==> !Marks(w)
    ensures |b| == 1 && BodyWords(b) == LineWords(b[0].pieces) && forall p :: p in b[0].pieces ==> Unmarked(p)
  {
    hide Writable, LineWords, Unmarked;
    SplitOrOfBody(b);
    assert b[0] in b && Marks("||");
    assert |b| == 1;
    UnmarkedLine(b[0].pieces);
  }

  /** Parsing undoes printing: for every filter that can be written down, with any mix of
      text, comparisons, selectors, groups and sides of `||`, well or badly formed, the parser
      gives exactly the terms, the label selectors, the field selectors and the error that its
      meaning has. */
  lemma ParseUndoesPrint(env: Env, b: seq<Line>)
    requires WritableBody(b)
    ensures Parse(env, PrintBody(b)) == BodyMeaning(env, b, 0)
  {
    hide Trim, Tokens, Parsed, PrintBody, BodyWords, BodyMeaning, WritableBody, Marks, Words, PlainTerms, Close;
    PrintedIsTrimmed(b);
    TokensOfPrinted(b);
    if w :| w in BodyWords(b) && Marks(w) {
      ParsedBody(env, b, 0);
    } else {
      PlainBody(env, b);
    }
  }

  lemma PlainBody(env: Env, b: seq<Line>)
    requires WritableBody(b) && forall w :: w in BodyWords(b) ==> !Marks(w)
    ensures Close(PlainTerms(env, Words(PrintBody(b)), Acc([], [], [], None))) == BodyMeaning(env, b, 0)
  {
    hide LineWords, LineMeaning, Marks, PlainTerms, Close, Unmarked, Writable, Words;
    MarkedOrPlain(b);
    assert b[0] in b;
    PlainFilter(env, b[0].pieces);
  }

  // ----- selectors, in one filter -------------------------------------------------------------

  const SOME_SELECTORS :=
    [Selector(OnLabels, "a=b", Bare), Selector(OnFields, "c=d", Double), Attached(OnLabels, "e=f")]

  lemma SelectorsAreWritable()
    ensures WritableBody([Line(SOME_SELECTORS)])
  {
    hide IsWhitespace;
    PlainEdges();
    SmallLettersArePlain();
    assert "a=b"[1] == '=' && "c=d"[1] == '=' && "e=f"[1] == '=';
    forall k: nat | k < 3 ensures BareAt("a=b", k) {
    }
    forall k: nat | k < 5 ensures BareAt("-le=f", k) {
    }
    assert "-l" + "e=f" == "-le=f";
  }

  lemma SmallLettersArePlain()
    ensures forall c :: 'a' <= c <= 'z' || c == '=' || c == '-' ==> PlainChar(c)
  {
  }

  lemma SelectorWords()
    ensures BodyWords([Line(SOME_SELECTORS)]) == ["-l", "a=b", "-f", "\"c=d\"", "-le=f"]
  {
    var ps := SOME_SELECTORS;
    assert ps[1..] == [ps[1], ps[2]] && ps[1..][1..] == [ps[2]] && [ps[2]][1..] == [];
    assert LineWords([ps[2]]) == PieceWords(ps[2]) + [];
    assert LineWords(ps[1..]) == PieceWords(ps[1]) + LineWords([ps[2]]);
    assert InQuotes("c=d") == "\"c=d\"" && "-l" + "e=f" == "-le=f";
  }

  lemma SpacedMore(w: string, ws: seq<string>)
    requires ws != []
    ensures Spaced([w] + ws) == w + (" " + Spaced(ws)) && Spaced([w]) == w
  {
    assert ([w] + ws)[1..] == ws;
  }

  lemma SelectorText()
    ensures PrintBody([Line(SOME_SELECTORS)]) == "-l a=b -f \"c=d\" -le=f"
  {
    hide BodyWords, Spaced;
    SelectorWords();
    SpacedMore("\"c=d\"", ["-le=f"]);
    SpacedMore("-le=f", [""]);
    SpacedMore("-f", ["\"c=d\"", "-le=f"]);
    SpacedMore("a=b", ["-f", "\"c=d\"", "-le=f"]);
    SpacedMore("-l", ["a=b", "-f", "\"c=d\"", "-le=f"]);
    assert ["\"c=d\""] + ["-le=f"] == ["\"c=d\"", "-le=f"];
    assert ["-f"] + ["\"c=d\"", "-le=f"] == ["-f", "\"c=d\"", "-le=f"];
    assert ["a=b"] + ["-f", "\"c=d\"", "-le=f"] == ["a=b", "-f", "\"c=d\"", "-le=f"];
    assert ["-l"] + ["a=b", "-f", "\"c=d\"", "-le=f"] == ["-l", "a=b", "-f", "\"c=d\"", "-le=f"];
  }

  lemma SelectorsMean(env: Env)
    ensures LineMeaning(env, SOME_SELECTORS, 0) == Structured([], Some("a=b,e=f"), Some("c=d"), None)
  {
    hide LineEffects, PieceMeaning, LabelsOf, FieldsOf, TermsOf, FirstError;
    var es := LineEffects(env, SOME_SELECTORS, 0);
    SelectorEffects(env);
    NoEffects();
    EffectsSplit(AddsLabel("a=b"), [AddsField("c=d"), AddsLabel("e=f")]);
    EffectsSplit(AddsField("c=d"), [AddsLabel("e=f")]);
    EffectsSplit(AddsLabel("e=f"), []);
    assert [AddsLabel("a=b")] + [AddsField("c=d"), AddsLabel("e=f")] == es;
    assert [AddsField("c=d")] + [AddsLabel("e=f")] == [AddsField("c=d"), AddsLabel("e=f")];
    assert [AddsLabel("e=f")] + [] == [AddsLabel("e=f")];
    assert LabelsOf(es) == ["a=b", "e=f"] && FieldsOf(es) == ["c=d"];
    assert ["a=b", "e=f"][..1] == ["a=b"] && "a=b" + "," + "e=f" == "a=b,e=f";
  }

  lemma SelectorEffects(env: Env)
    ensures LineEffects(env, SOME_SELECTORS, 0) == [AddsLabel("a=b"), AddsField("c=d"), AddsLabel("e=f")]
  {
    assert "c=d"[1] == '=';
  }

  lemma NoEffects()
    ensures TermsOf([]) == [] && LabelsOf([]) == [] && FieldsOf([]) == [] && FirstError([]) == None
  {
  }

  lemma EffectsSplit(e: Effect, es: seq<Effect>)
    ensures var all := [e] + es;
      && TermsOf(all) == (if e.Adds? then [e.term] else []) + TermsOf(es)
      && LabelsOf(all) == (if e.AddsLabel? then [e.sel] else []) + LabelsOf(es)
      && FieldsOf(all) == (if e.AddsField? then [e.sel] else []) + FieldsOf(es)
      && FirstError(all) == if e.Fails? then Some(e.error) else FirstError(es)
  {
    assert ([e] + es)[1..] == es;
  }

  /** `-l` and an attached `-l` fill the label selector, `-f` the field selector. */
  lemma SelectorsAreKeptApart(env: Env)
    ensures Parse(env, "-l a=b -f \"c=d\" -le=f") == Structured([], Some("a=b,e=f"), Some("c=d"), None)
  {
    hide Parse, PrintBody, WritableBody, LineMeaning;
    SelectorsAreWritable();
    SelectorText();
    SelectorsMean(env);
    ParseUndoesPrint(env, [Line(SOME_SELECTORS)]);
  }
}
