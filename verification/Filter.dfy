/** The structured filter grammar of src/filter.rs: a tokenizer that keeps quotes,
    groups and regular expressions whole, and a Boolean parser that tokenizes each
    group's interior again. Number typing and regex compilation are parameters. */
module Filter {
  import opened Wrappers
  import opened Text

  datatype Error =
    | TooDeep | EmptyBranch | SelectorInOr | UnclosedGroup | SelectorInGroup | EmptyGroup
    | DanglingAnd | NoSelectorSet | InvalidSelector | NoSelector | MissingValue | BadValue
    | NoLabelPattern | NoText | FuzzyLabel | EmptyQuotes | EmptyPrefix | EmptyRegex
    | EmptyFuzzy | EmptyAlternatives | BadRegex | UnexpectedClose | Unclosed

  datatype Pattern =
    | Fuzzy(text: string)
    | Literal(text: string)
    | Prefix(text: string)
    | Regex(source: string)
    | Either(alternatives: seq<string>)

  datatype Op = Eq | Ne | Gt | Ge | Lt | Le

  datatype CmpValue =
    | Num(n: real)
    | Quantity(q: real, text: string)
    | Cpu(cores: real, milli: int)
    | Mem(amount: real, bytes: int)
    | Duration(secs: int)
    | Folded(text: string)

  datatype Term =
    | TextTerm(negate: bool, pat: Pattern)
    | LabelTerm(negate: bool, pat: Pattern)
    | Cmp(key: string, op: Op, value: CmpValue)
    | All(terms: seq<Term>)
    | Any(terms: seq<Term>)
    | Not(terms: seq<Term>)

  datatype Structured = Structured(
    terms: seq<Term>, labels: Option<string>, fields: Option<string>, error: Option<Error>)

  /** `typed_value` and `RegexBuilder::build`, the two calls into unseen code. */
  datatype Env = Env(typed: (string, string) -> Result<CmpValue, Error>, compiles: string -> bool)

  function Failed(e: Error): Structured { Structured([], None, None, Some(e)) }

  // ----- characters ----------------------------------------------------------

  predicate IsAlnum(c: char) { IsDigit(c) || 'a' <= c <= 'z' || 'A' <= c <= 'Z' }

  predicate KeyStart(c: char) { IsAlnum(c) || c == '_' || c == '%' }

  predicate KeyChar(c: char) { KeyStart(c) || c == '-' || c == '.' || c == '/' }

  function Strip(prefix: string, s: string): Option<string> {
    if prefix <= s then Some(s[|prefix|..]) else None
  }

  function StripEnd(s: string, c: char): Option<string> {
    if s != "" && s[|s| - 1] == c then Some(s[..|s| - 1]) else None
  }

  // ----- tokens ----------------------------------------------------------------

  predicate EndsTerm(s: string, end: nat)
    requires end <= |s|
  {
    end == |s| || IsWhitespace(s[end]) || s[end] == ')' || s[end] == '&' || s[end] == '|'
  }

  /** Where the regular expression opened at the start of `s` closes. */
  function RegexEndFrom(s: string, i: nat, escaped: bool, classes: nat, fallback: Option<nat>): (end: Option<nat>)
    requires 1 <= i <= |s|
    requires fallback.Some? ==> 1 < fallback.value <= |s|
    ensures end.Some? ==> 1 < end.value <= |s|
    decreases |s| - i
  {
    if i == |s| then fallback
    else if escaped then RegexEndFrom(s, i + 1, false, classes, fallback)
    else if s[i] == '\\' then RegexEndFrom(s, i + 1, true, classes, fallback)
    else if s[i] == '[' then RegexEndFrom(s, i + 1, false, classes + 1, fallback)
    else if s[i] == ']' then RegexEndFrom(s, i + 1, false, if classes > 0 then classes - 1 else 0, fallback)
    else if s[i] == '/' && EndsTerm(s, i + 1) then
      if classes == 0 then Some(i + 1)
      else RegexEndFrom(s, i + 1, false, classes, if fallback.Some? then fallback else Some(i + 1))
    else RegexEndFrom(s, i + 1, false, classes, fallback)
  }

  /** The character at `i` follows a backslash that is not itself escaped. */
  predicate EscapedAt(s: string, i: nat)
    requires 1 <= i <= |s|
  {
    i > 1 && s[i - 1] == '\\' && !EscapedAt(s, i - 1)
  }

  /** How many character classes are open before `i`; a stray bracket closes none. */
  function ClassDepth(s: string, i: nat): nat
    requires 1 <= i <= |s|
  {
    if i == 1 then 0
    else
      var before := ClassDepth(s, i - 1);
      if EscapedAt(s, i - 1) then before
      else if s[i - 1] == '[' then before + 1
      else if s[i - 1] == ']' && before > 0 then before - 1
      else before
  }

  /** A slash that could close the expression: not escaped, and a term ends after it. */
  predicate Boundary(s: string, k: nat) {
    1 <= k < |s| && s[k] == '/' && !EscapedAt(s, k) && EndsTerm(s, k + 1)
  }

  predicate Closes(s: string, k: nat) { Boundary(s, k) && ClassDepth(s, k) == 0 }

  predicate FirstClosing(s: string, k: nat) { Closes(s, k) && forall j :: 0 <= j < k ==> !Closes(s, j) }

  predicate FirstBoundary(s: string, k: nat) { Boundary(s, k) && forall j :: 0 <= j < k ==> !Boundary(s, j) }

  /** After the first such slash outside every class, else after the first one at all, else
      nowhere. */
  ghost predicate RegexEndsAt(s: string, end: Option<nat>) {
    match end
    case Some(e) =>
      e > 0 && (FirstClosing(s, e - 1) || (FirstBoundary(s, e - 1) && forall k :: 0 <= k < |s| ==> !Closes(s, k)))
    case None => forall k :: 0 <= k < |s| ==> !Boundary(s, k)
  }

  /** What the scan has seen before `i`. */
  ghost predicate Seen(s: string, i: nat, escaped: bool, classes: int, fallback: Option<nat>)
    requires 1 <= i <= |s|
  {
    && escaped == EscapedAt(s, i) && classes == ClassDepth(s, i)
    && (forall k :: 0 <= k < i ==> !Closes(s, k))
    && match fallback
       case Some(e) => 1 < e <= i && FirstBoundary(s, e - 1)
       case None => forall k :: 0 <= k < i ==> !Boundary(s, k)
  }

  /** One character on, short of a closing slash. */
  lemma SeenNext(s: string, i: nat, escaped: bool, classes: nat, fallback: Option<nat>)
    returns (escaped': bool, classes': nat, fallback': Option<nat>)
    requires 1 <= i < |s| && Seen(s, i, escaped, classes, fallback) && !Closes(s, i)
    ensures Seen(s, i + 1, escaped', classes', fallback')
    ensures RegexEndFrom(s, i, escaped, classes, fallback) == RegexEndFrom(s, i + 1, escaped', classes', fallback')
  {
    escaped' := !escaped && s[i] == '\\';
    classes' :=
      if !escaped && s[i] == '[' then classes + 1
      else if !escaped && s[i] == ']' && classes > 0 then classes - 1
      else classes;
    fallback' := if Boundary(s, i) && fallback.None? then Some(i + 1) else fallback;
    NextIsSeen(s, i, escaped, classes, fallback, fallback');
  }

  lemma NextIsSeen(s: string, i: nat, escaped: bool, classes: nat, fallback: Option<nat>, fallback': Option<nat>)
    requires 1 <= i < |s| && Seen(s, i, escaped, classes, fallback) && !Closes(s, i)
    requires fallback' == if Boundary(s, i) && fallback.None? then Some(i + 1) else fallback
    ensures Seen(s, i + 1, EscapedAt(s, i + 1), ClassDepth(s, i + 1), fallback')
  {
    hide ClassDepth, EscapedAt, EndsTerm;
    forall k | 0 <= k < i + 1 ensures !Closes(s, k) {
    }
  }

  lemma {:induction false} RegexEndFinds(s: string, i: nat, escaped: bool, classes: nat, fallback: Option<nat>)
    requires 1 <= i <= |s| && Seen(s, i, escaped, classes, fallback)
    ensures RegexEndsAt(s, RegexEndFrom(s, i, escaped, classes, fallback))
    decreases |s| - i
  {
    if i < |s| && !Closes(s, i) {
      hide Seen, RegexEndFrom, RegexEndsAt;
      var e, c, f := SeenNext(s, i, escaped, classes, fallback);
      RegexEndFinds(s, i + 1, e, c, f);
    }
  }

  method RegexEnd(s: string) returns (end: Option<nat>)
    requires s != ""
    ensures RegexEndsAt(s, end)
    ensures end == RegexEndFrom(s, 1, false, 0, None)
  {
    RegexEndFinds(s, 1, false, 0, None);
    var i, escaped, classes := 1, false, 0;
    var fallback: Option<nat> := None;
    while i < |s|
      invariant 1 <= i <= |s| && classes >= 0
      invariant fallback.Some? ==> 1 < fallback.value <= |s|
      invariant RegexEndFrom(s, i, escaped, classes, fallback) == RegexEndFrom(s, 1, false, 0, None)
    {
      if escaped {
        escaped := false;
      } else if s[i] == '\\' {
        escaped := true;
      } else if s[i] == '[' {
        classes := classes + 1;
      } else if s[i] == ']' {
        classes := if classes > 0 then classes - 1 else 0;
      } else if s[i] == '/' && EndsTerm(s, i + 1) {
        if classes == 0 { return Some(i + 1); }
        fallback := if fallback.Some? then fallback else Some(i + 1);
      }
      i := i + 1;
    }
    return fallback;
  }

  function TrimBangs(s: string): string {
    if s != "" && s[|s| - 1] == '!' then TrimBangs(s[..|s| - 1]) else s
  }

  predicate AtPatternStart(before: string) {
    var n := |before| - 6;
    var s := TrimBangs(if n >= 0 && before[n..] == "label:" then before[..n] else before);
    s == "" || IsWhitespace(s[|s| - 1]) || s[|s| - 1] == '(' || s[|s| - 1] == '&' || s[|s| - 1] == '|'
  }

  datatype Tok = Tok(tokens: seq<string>, token: string, quote: Option<char>, depth: nat) {
    /** Close the token being collected, if there is one. */
    function Cut(): Tok { Tok(if token == "" then tokens else tokens + [token], "", quote, depth) }

    function Put(s: string): Tok { Tok(tokens, token + s, quote, depth) }
  }

  /** One round of the tokenizer's loop. */
  function Advance(input: string, i: nat, st: Tok): (r: Result<(nat, Tok), Error>)
    requires i < |input|
    ensures r.Ok? ==> i < r.value.0 <= |input|
  {
    var c := input[i];
    var put := st.Put([c]);
    if st.quote.Some? then Ok((i + 1, put.(quote := if st.quote == Some(c) then None else st.quote)))
    else
      var end := if c == '/' && AtPatternStart(input[..i]) then RegexEndFrom(input[i..], 1, false, 0, None) else None;
      if end.Some? then Ok((i + end.value, st.Put(input[i..i + end.value])))
      else if c == '\'' || c == '"' then Ok((i + 1, put.(quote := Some(c))))
      else if c == '(' then Ok((i + 1, put.(depth := st.depth + 1)))
      else if c == ')' then (if st.depth == 0 then Err(UnexpectedClose) else Ok((i + 1, put.(depth := st.depth - 1))))
      else if st.depth == 0 && (c == '&' || c == '|') && i + 1 < |input| && input[i + 1] == c then
        Ok((i + 2, var cut := st.Cut(); cut.(tokens := cut.tokens + [[c, c]])))
      else if IsWhitespace(c) && st.depth == 0 then Ok((i + 1, st.Cut()))
      else Ok((i + 1, put))
  }

  function Finish(st: Tok): Result<seq<string>, Error> {
    var bare := Strip("!", st.token);
    var text := if bare.Some? then bare.value else st.token;
    var labelled := Strip("label:", text);
    var shown := if labelled.Some? then labelled.value else text;
    if st.depth != 0 || (st.quote.Some? && !("\"" <= shown)) then Err(Unclosed)
    else Ok(st.Cut().tokens)
  }

  function Scan(input: string, i: nat, st: Tok): Result<seq<string>, Error>
    requires i <= |input|
    decreases |input| - i
  {
    if i == |input| then Finish(st)
    else
      var r := Advance(input, i, st);
      if r.Err? then Err(r.error) else Scan(input, r.value.0, r.value.1)
  }

  const FRESH := Tok([], "", None, 0)

  function Tokens(input: string): Result<seq<string>, Error> { Scan(input, 0, FRESH) }

  method Tokenize(input: string) returns (r: Result<seq<string>, Error>)
    ensures r == Tokens(input)
  {
    var i, st := 0, FRESH;
    while i < |input|
      invariant 0 <= i <= |input|
      invariant Scan(input, i, st) == Tokens(input)
      decreases |input| - i
    {
      var next := Advance(input, i, st);
      if next.Err? { return Err(next.error); }
      i, st := next.value.0, next.value.1;
    }
    return Finish(st);
  }

  function Length(tokens: seq<string>): nat {
    if tokens == [] then 0 else |tokens[0]| + Length(tokens[1..])
  }

  lemma {:induction false} LengthAppend(a: seq<string>, b: seq<string>)
    ensures Length(a + b) == Length(a) + Length(b)
  {
    if a == [] {
      assert a + b == b;
    } else {
      LengthAppend(a[1..], b);
      assert (a + b)[1..] == a[1..] + b;
    }
  }

  lemma {:induction false} LengthAt(tokens: seq<string>, i: nat)
    requires i < |tokens|
    ensures |tokens[i]| <= Length(tokens)
  {
    if i > 0 { LengthAt(tokens[1..], i - 1); }
  }

  /** Characters held by the tokenizer. */
  function Held(st: Tok): nat { Length(st.tokens) + |st.token| }

  lemma CutHolds(st: Tok)
    ensures Held(st.Cut()) == Held(st)
  {
    LengthAppend(st.tokens, [st.token]);
    assert Length([st.token]) == |st.token| + Length([]);
  }

  lemma {:induction false} ScanHolds(input: string, i: nat, st: Tok)
    requires i <= |input| && Held(st) <= i
    ensures Scan(input, i, st).Ok? ==> Length(Scan(input, i, st).value) <= |input|
    decreases |input| - i
  {
    CutHolds(st);
    if i < |input| {
      var r := Advance(input, i, st);
      if r.Ok? {
        var cut := st.Cut().tokens;
        LengthAppend(cut, [[input[i], input[i]]]);
        assert Length([[input[i], input[i]]]) == 2 + Length([]);
        ScanHolds(input, r.value.0, r.value.1);
      }
    }
  }

  /** Tokens never hold more text than the input they were cut from. */
  lemma TokensAreShort(input: string)
    ensures Tokens(input).Ok? ==> Length(Tokens(input).value) <= |input|
  {
    ScanHolds(input, 0, FRESH);
  }

  // ----- terms -----------------------------------------------------------------

  function Unquote(value: string): string {
    if |value| >= 2 && value[0] == '\'' && value[|value| - 1] == '\'' then value[1..|value| - 1]
    else if |value| >= 2 && value[0] == '"' && value[|value| - 1] == '"' then value[1..|value| - 1]
    else value
  }

  predicate IsRegex(tok: string) { |tok| >= 2 && tok[0] == '/' && tok[|tok| - 1] == '/' }

  function AttachedSelector(tok: string, flag: string): Option<string> {
    var rest := Strip(flag, tok);
    if rest.Some? && '=' in rest.value then rest else None
  }

  function KeyEnd(tok: string): (n: nat)
    ensures n <= |tok|
  {
    if tok == "" || !KeyChar(tok[0]) then 0 else 1 + KeyEnd(tok[1..])
  }

  function SplitOp(rest: string): Option<(Op, string)> {
    if "!=" <= rest then Some((Ne, rest[2..]))
    else if ">=" <= rest then Some((Ge, rest[2..]))
    else if "<=" <= rest then Some((Le, rest[2..]))
    else if "==" <= rest then Some((Eq, rest[2..]))
    else if "=" <= rest then Some((Eq, rest[1..]))
    else if ">" <= rest then Some((Gt, rest[1..]))
    else if "<" <= rest then Some((Lt, rest[1..]))
    else None
  }

  function SplitCmp(tok: string): Option<(string, Op, string)> {
    if tok == "" || !KeyStart(tok[0]) then None
    else
      var n := KeyEnd(tok);
      var o := SplitOp(tok[n..]);
      if n < |tok| && o.Some? then Some((tok[..n], o.value.0, o.value.1)) else None
  }

  function SplitBars(s: string): (parts: seq<string>)
    ensures |parts| > 0
  {
    if s == "" then [""]
    else
      var rest := SplitBars(s[1..]);
      if s[0] == '|' then [""] + rest else [[s[0]] + rest[0]] + rest[1..]
  }

  function NonEmpty(parts: seq<string>): seq<string> {
    if parts == [] then [] else (if parts[0] == "" then [] else [parts[0]]) + NonEmpty(parts[1..])
  }

  function PatternOf(env: Env, tok: string): Result<Pattern, Error> {
    if "\"" <= tok then
      var rest := tok[1..];
      var closed := StripEnd(rest, '"');
      var text := if closed.Some? then closed.value else rest;
      if text == "" then Err(EmptyQuotes) else Ok(Literal(text))
    else if "^" <= tok then
      if tok == "^" then Err(EmptyPrefix) else if env.compiles(tok) then Ok(Prefix(tok[1..])) else Err(BadRegex)
    else if IsRegex(tok) then
      if |tok| == 2 then Err(EmptyRegex)
      else if env.compiles(tok[1..|tok| - 1]) then Ok(Regex(tok[1..|tok| - 1])) else Err(BadRegex)
    else if "~" <= tok then
      if tok == "~" then Err(EmptyFuzzy) else Ok(Fuzzy(tok[1..]))
    else if '|' in tok then
      var alternatives := NonEmpty(SplitBars(tok));
      if alternatives == [] then Err(EmptyAlternatives)
      else if |alternatives| == 1 then Ok(Literal(alternatives[0]))
      else if env.compiles(tok) then Ok(Either(alternatives)) else Err(BadRegex)
    else Ok(Literal(tok))
  }

  /** What the parser's loop has gathered; the first error is the one kept. */
  datatype Acc = Acc(terms: seq<Term>, labels: seq<string>, fields: seq<string>, error: Option<Error>) {
    function Fail(e: Error): Acc { if error.None? then Acc(terms, labels, fields, Some(e)) else this }

    function Add(t: Term): Acc { Acc(terms + [t], labels, fields, error) }
  }

  function SelectorStep(tokens: seq<string>, i: nat, acc: Acc): (r: (nat, Acc))
    requires i < |tokens|
    ensures i < r.0 <= |tokens|
  {
    var tok, j := tokens[i], i + 1;
    if j == |tokens| || "-" <= tokens[j] || tokens[j] == "&&" then (j, acc.Fail(NoSelector))
    else
      var sel, k := Unquote(tokens[j]), j + 1;
      if tok == "-l" && k < |tokens| && (tokens[k] == "in" || tokens[k] == "notin") then
        if k + 1 < |tokens| && "(" <= tokens[k + 1] then
          (k + 2, acc.(labels := acc.labels + [sel + " " + tokens[k] + " " + tokens[k + 1]]))
        else (k + 1, acc.Fail(NoSelectorSet))
      else if sel == "" || (tok == "-f" && '=' !in sel) then (k, acc.Fail(InvalidSelector))
      else if tok == "-l" then (k, acc.(labels := acc.labels + [sel]))
      else (k, acc.(fields := acc.fields + [sel]))
  }

  /** Text: `!` inverts, `label:` matches labels, then the pattern's own markers. */
  function TextStep(env: Env, tok: string, acc: Acc): Acc {
    var bare := Strip("!", tok);
    if bare.Some? then PatternStep(env, true, bare.value, acc) else PatternStep(env, false, tok, acc)
  }

  function PatternStep(env: Env, negate: bool, text: string, acc: Acc): Acc {
    var labelled := Strip("label:", text);
    var rest := if labelled.Some? then labelled.value else text;
    if rest == "" then acc.Fail(if labelled.Some? then NoLabelPattern else NoText)
    else
      var pat := PatternOf(env, rest);
      if pat.Err? then acc.Fail(pat.error)
      else if pat.value.Fuzzy? && labelled.Some? then acc.Fail(FuzzyLabel)
      else acc.Add(if labelled.Some? then LabelTerm(negate, pat.value) else TextTerm(negate, pat.value))
  }

  /** One token that is not a group: an operator, a selector, a comparison or text. */
  function LeafStep(env: Env, tokens: seq<string>, i: nat, acc: Acc): (r: (nat, Acc))
    requires i < |tokens|
    ensures i < r.0 <= |tokens|
  {
    var tok := tokens[i];
    if tok == "&&" then
      (i + 1, if i == 0 || i + 1 == |tokens| || tokens[i + 1] == "&&" then acc.Fail(DanglingAnd) else acc)
    else if tok == "-l" || tok == "-f" then SelectorStep(tokens, i, acc)
    else if AttachedSelector(tok, "-l").Some? then
      (i + 1, acc.(labels := acc.labels + [AttachedSelector(tok, "-l").value]))
    else if AttachedSelector(tok, "-f").Some? then
      (i + 1, acc.(fields := acc.fields + [AttachedSelector(tok, "-f").value]))
    else
      match SplitCmp(tok)
      case Some((key, op, value)) =>
        if value == "" then (i + 1, acc.Fail(MissingValue))
        else
          var v := env.typed(key, Unquote(value));
          (i + 1, if v.Ok? then acc.Add(Cmp(Lower(key), op, v.value)) else acc.Fail(v.error))
      case None => (i + 1, TextStep(env, tok, acc))
  }

  /** The interior of a group token, still ending in `)`, and whether it is negated. */
  function GroupBody(tok: string): Option<(string, bool)> {
    if "!(" <= tok then Some((tok[2..], true))
    else if "(" <= tok then Some((tok[1..], false))
    else None
  }

  function GroupStep(acc: Acc, inverse: bool, parsed: Result<Structured, Error>): Acc {
    match parsed
    case Err(e) => acc.Fail(e)
    case Ok(s) =>
      if s.labels.Some? || s.fields.Some? then acc.Fail(SelectorInGroup)
      else if s.error.Some? then acc.Fail(s.error.value)
      else if s.terms == [] then acc.Fail(EmptyGroup)
      else acc.Add(if inverse then Not(s.terms) else All(s.terms))
  }

  function JoinSelectors(sels: seq<string>): string {
    if sels == [] then ""
    else if |sels| == 1 then sels[0]
    else sels[0] + "," + JoinSelectors(sels[1..])
  }

  function Close(acc: Acc): Structured {
    Structured(acc.terms,
               if acc.labels == [] then None else Some(JoinSelectors(acc.labels)),
               if acc.fields == [] then None else Some(JoinSelectors(acc.fields)),
               acc.error)
  }

  function SplitOr(tokens: seq<string>): (branches: seq<seq<string>>)
    ensures |branches| > 0
  {
    if tokens == [] then [[]]
    else
      var rest := SplitOr(tokens[1..]);
      if tokens[0] == "||" then [[]] + rest else [[tokens[0]] + rest[0]] + rest[1..]
  }

  lemma {:induction false} BranchesAreShorter(tokens: seq<string>, k: nat)
    requires k < |SplitOr(tokens)|
    ensures Length(SplitOr(tokens)[k]) <= Length(tokens)
    ensures "||" in tokens ==> Length(SplitOr(tokens)[k]) < Length(tokens)
  {
    if tokens != [] {
      var rest, branches := SplitOr(tokens[1..]), SplitOr(tokens);
      if tokens[0] == "||" {
        if k > 0 { BranchesAreShorter(tokens[1..], k - 1); }
      } else if k == 0 {
        BranchesAreShorter(tokens[1..], 0);
        assert ([tokens[0]] + rest[0])[1..] == rest[0];
      } else {
        BranchesAreShorter(tokens[1..], k);
        assert branches[k] == rest[k];
      }
    }
  }

  function BranchError(branch: seq<string>, s: Structured): Option<Error> {
    if branch == [] then Some(EmptyBranch)
    else if s.labels.Some? || s.fields.Some? then Some(SelectorInOr)
    else s.error
  }

  const MAX_DEPTH := 32

  /** `parse_tokens`. The recursion ends because every group interior and every
      branch holds strictly less text; the depth limit plays no part in it. */
  function Parsed(env: Env, tokens: seq<string>, depth: nat): Structured
    decreases Length(tokens), |tokens| + 1, 0
  {
    if depth > MAX_DEPTH then Failed(TooDeep)
    else if "||" in tokens then ParsedBranches(env, tokens, 0, depth, [])
    else Close(ParsedFrom(env, tokens, 0, depth, Acc([], [], [], None)))
  }

  function ParsedBranches(env: Env, tokens: seq<string>, k: nat, depth: nat, done: seq<Term>): Structured
    requires "||" in tokens && k <= |SplitOr(tokens)|
    decreases Length(tokens), 0, |SplitOr(tokens)| - k
  {
    var branches := SplitOr(tokens);
    if k == |branches| then Structured([Any(done)], None, None, None)
    else
      BranchesAreShorter(tokens, k);
      var s := Parsed(env, branches[k], depth + 1);
      var e := BranchError(branches[k], s);
      if e.Some? then Failed(e.value)
      else ParsedBranches(env, tokens, k + 1, depth, done + [All(s.terms)])
  }

  function ParsedFrom(env: Env, tokens: seq<string>, i: nat, depth: nat, acc: Acc): Acc
    requires i <= |tokens|
    decreases Length(tokens), |tokens| - i, 1
  {
    if i == |tokens| then acc
    else
      var group := GroupBody(tokens[i]);
      if group.Some? then
        LengthAt(tokens, i);
        var parsed := ParsedGroup(env, group.value.0, depth, Length(tokens));
        ParsedFrom(env, tokens, i + 1, depth, GroupStep(acc, group.value.1, parsed))
      else
        var (j, acc') := LeafStep(env, tokens, i, acc);
        ParsedFrom(env, tokens, j, depth, acc')
  }

  function ParsedGroup(env: Env, body: string, depth: nat, ghost bound: nat): Result<Structured, Error>
    requires |body| < bound
    decreases bound, 0, 0
  {
    var inner := StripEnd(body, ')');
    if inner.None? then Err(UnclosedGroup)
    else
      var tokens := Tokens(inner.value);
      TokensAreShort(inner.value);
      if tokens.Err? then Err(tokens.error) else Ok(Parsed(env, tokens.value, depth + 1))
  }

  method ParseTokens(env: Env, tokens: seq<string>, depth: nat) returns (s: Structured)
    ensures s == Parsed(env, tokens, depth)
    decreases Length(tokens)
  {
    hide LeafStep, GroupStep, BranchError, Tokens, Close;
    if depth > MAX_DEPTH { return Failed(TooDeep); }
    if "||" in tokens {
      var branches, done := SplitOr(tokens), [];
      for k := 0 to |branches|
        invariant Parsed(env, tokens, depth) == ParsedBranches(env, tokens, k, depth, done)
      {
        BranchesAreShorter(tokens, k);
        var parsed := ParseTokens(env, branches[k], depth + 1);
        var e := BranchError(branches[k], parsed);
        if e.Some? { return Failed(e.value); }
        done := done + [All(parsed.terms)];
      }
      return Structured([Any(done)], None, None, None);
    }
    var i, acc := 0, Acc([], [], [], None);
    while i < |tokens|
      invariant 0 <= i <= |tokens|
      invariant Parsed(env, tokens, depth) == Close(ParsedFrom(env, tokens, i, depth, acc))
    {
      var group := GroupBody(tokens[i]);
      if group.Some? {
        LengthAt(tokens, i);
        var inner := StripEnd(group.value.0, ')');
        var parsed: Result<Structured, Error> := Err(UnclosedGroup);
        if inner.Some? {
          var interior := Tokenize(inner.value);
          TokensAreShort(inner.value);
          if interior.Err? {
            parsed := Err(interior.error);
          } else {
            var p := ParseTokens(env, interior.value, depth + 1);
            parsed := Ok(p);
          }
        }
        i, acc := i + 1, GroupStep(acc, group.value.1, parsed);
      } else {
        var step := LeafStep(env, tokens, i, acc);
        i, acc := step.0, step.1;
      }
    }
    return Close(acc);
  }

  // ----- the whole input -----------------------------------------------------------

  predicate Marks(tok: string) {
    var bare := Strip("!", tok);
    var text := if bare.Some? then bare.value else tok;
    || tok == "&&" || tok == "||" || tok == "-l" || tok == "-f"
    || AttachedSelector(tok, "-l").Some? || AttachedSelector(tok, "-f").Some?
    || "!" <= tok || "(" <= tok || "\"" <= text || "label:" <= text
    || IsRegex(text) || SplitCmp(tok).Some?
  }

  function Words(s: string): seq<string> { WordsFrom(s, "") }

  function WordsFrom(s: string, word: string): seq<string> {
    var cut := if word == "" then [] else [word];
    if s == "" then cut
    else if IsWhitespace(s[0]) then cut + WordsFrom(s[1..], "")
    else WordsFrom(s[1..], word + [s[0]])
  }

  predicate IsStructured(input: string) {
    var tokens := Tokens(input);
    exists t :: t in (if tokens.Ok? then tokens.value else Words(input)) && Marks(t)
  }

  function PlainTerms(env: Env, words: seq<string>, acc: Acc): Acc {
    if words == [] then acc
    else
      var pat := PatternOf(env, words[0]);
      PlainTerms(env, words[1..], if pat.Ok? then acc.Add(TextTerm(false, pat.value)) else acc.Fail(pat.error))
  }

  function Parse(env: Env, input: string): Structured {
    var trimmed := Trim(input);
    if !IsStructured(trimmed) then Close(PlainTerms(env, Words(trimmed), Acc([], [], [], None)))
    else
      var tokens := Tokens(trimmed);
      if tokens.Ok? then Parsed(env, tokens.value, 0) else Failed(tokens.error)
  }
}
