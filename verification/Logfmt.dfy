/** Logfmt fields of the application log (`format_line` and `push_value`,
    src/applog.rs), with redaction as a parameter. */
module Logfmt {
  import opened Wrappers

  datatype Field = Field(key: string, value: string)

  predicate Special(c: char) { c <= ' ' || c == '"' || c == '=' || c == '\\' }

  predicate Plain(s: string) { s != "" && forall c :: c in s ==> !Special(c) }

  function Escape(c: char): string {
    match c
    case '"' => "\\\""
    case '\\' => "\\\\"
    case '\n' => "\\n"
    case '\r' => "\\r"
    case '\t' => "\\t"
    case _ => [c]
  }

  function Escaped(s: string): string { if s == "" then "" else Escape(s[0]) + Escaped(s[1..]) }

  function Quoted(value: string): string { if Plain(value) then value else "\"" + Escaped(value) + "\"" }

  function FieldText(f: Field): string { " " + f.key + "=" + Quoted(f.value) }

  function Section(fields: seq<Field>): string {
    if fields == [] then "" else FieldText(fields[0]) + Section(fields[1..])
  }

  function Redacted(fields: seq<Field>, redact: string -> string): (r: seq<Field>)
    ensures |r| == |fields|
    ensures forall i :: 0 <= i < |r| ==> r[i] == Field(fields[i].key, redact(fields[i].value))
  {
    seq(|fields|, i requires 0 <= i < |fields| => Field(fields[i].key, redact(fields[i].value)))
  }

  lemma {:induction false} EscapedAppend(a: string, c: char)
    ensures Escaped(a + [c]) == Escaped(a) + Escape(c)
  {
    if a != "" {
      assert (a + [c])[1..] == a[1..] + [c];
      EscapedAppend(a[1..], c);
    }
  }

  lemma {:induction false} SectionAppend(fields: seq<Field>, f: Field)
    ensures Section(fields + [f]) == Section(fields) + FieldText(f)
  {
    if fields != [] {
      assert (fields + [f])[1..] == fields[1..] + [f];
      SectionAppend(fields[1..], f);
    }
  }

  method PushValue(buffer: string, raw: string, redact: string -> string) returns (out: string)
    ensures out == buffer + Quoted(redact(raw))
  {
    hide Escape, Special;
    var value := redact(raw);
    var plain := value != "";
    for i := 0 to |value|
      invariant plain <==> value != "" && forall j :: 0 <= j < i ==> !Special(value[j])
    {
      if Special(value[i]) { plain := false; }
    }
    if plain { return buffer + value; }
    var body := "";
    for i := 0 to |value|
      invariant body == Escaped(value[..i])
    {
      EscapedAppend(value[..i], value[i]);
      assert value[..i + 1] == value[..i] + [value[i]];
      body := body + Escape(value[i]);
    }
    assert value[..|value|] == value;
    out := buffer + ("\"" + body + "\"");
  }

  method FormatFields(head: string, fields: seq<Field>, redact: string -> string) returns (line: string)
    ensures line == head + Section(Redacted(fields, redact)) + "\n"
  {
    hide Quoted, Section;
    ghost var done := Redacted(fields, redact);
    var section := "";
    assert Section(done[..0]) == "" by { SectionOfNone(); }
    for i := 0 to |fields|
      invariant section == Section(done[..i])
    {
      SectionAppend(done[..i], done[i]);
      assert done[..i + 1] == done[..i] + [done[i]];
      section := section + (" " + fields[i].key + "=");
      section := PushValue(section, fields[i].value, redact);
    }
    assert done[..|fields|] == done;
    line := head + section + "\n";
  }

  lemma SectionOfNone()
    ensures Section([]) == ""
  {
  }

  // ----- a reader -------------------------------------------------------------------------

  function Unescape(c: char): char {
    match c case 'n' => '\n' case 'r' => '\r' case 't' => '\t' case _ => c
  }

  /** The text before the first `stop`, and what follows from it on. */
  function Until(s: string, stops: set<char>): (r: (string, string))
    ensures s == r.0 + r.1
  {
    if s == "" || s[0] in stops then ("", s)
    else var (a, b) := Until(s[1..], stops); ([s[0]] + a, b)
  }

  /** The value up to the closing quote, and the text after it. */
  function ReadQuoted(s: string): (r: Option<(string, string)>)
    ensures r.Some? ==> |r.value.1| < |s|
  {
    if s == "" then None
    else if s[0] == '"' then Some(("", s[1..]))
    else if s[0] == '\\' then
      if |s| < 2 then None
      else
        var r := ReadQuoted(s[2..]);
        if r.None? then None else Some(([Unescape(s[1])] + r.value.0, r.value.1))
    else
      var r := ReadQuoted(s[1..]);
      if r.None? then None else Some(([s[0]] + r.value.0, r.value.1))
  }

  function ReadValue(s: string): (r: Option<(string, string)>)
    ensures r.Some? ==> |r.value.1| <= |s|
  {
    if s != "" && s[0] == '"' then ReadQuoted(s[1..]) else Some(Until(s, {' ', '\n'}))
  }

  /** Fields are split at unquoted spaces and end at the line's newline. */
  function ReadFields(s: string): Option<seq<Field>>
    decreases |s|
  {
    if s == "\n" then Some([])
    else if s == "" || s[0] != ' ' then None
    else
      var (key, more) := Until(s[1..], {'='});
      var value := if more == "" then None else ReadValue(more[1..]);
      if value.None? then None
      else
        var rest := ReadFields(value.value.1);
        if rest.None? then None else Some([Field(key, value.value.0)] + rest.value)
  }

  lemma {:induction false} UntilStops(a: string, more: string, stops: set<char>)
    requires forall c :: c in a ==> c !in stops
    requires more != "" && more[0] in stops
    ensures Until(a + more, stops) == (a, more)
  {
    if a == "" {
      assert a + more == more;
    } else {
      assert a[0] in a && (a + more)[1..] == a[1..] + more;
      UntilStops(a[1..], more, stops);
      assert [a[0]] + a[1..] == a;
    }
  }

  function Before(c: char, r: Option<(string, string)>): Option<(string, string)> {
    if r.None? then None else Some(([c] + r.value.0, r.value.1))
  }

  lemma ReadPair(c: char, tail: string)
    ensures ReadQuoted("\\" + [c] + tail) == Before(Unescape(c), ReadQuoted(tail))
  {
    var s := "\\" + [c] + tail;
    assert s[0] == '\\' && s[1] == c && s[2..] == tail;
  }

  lemma ReadSingle(c: char, tail: string)
    requires c != '"' && c != '\\'
    ensures ReadQuoted([c] + tail) == Before(c, ReadQuoted(tail))
  {
    assert ([c] + tail)[1..] == tail;
  }

  lemma ReadOneChar(c: char, tail: string)
    ensures ReadQuoted(Escape(c) + tail) == Before(c, ReadQuoted(tail))
  {
    hide ReadQuoted, Before;
    match c {
      case '"' => assert Escape(c) == "\\" + ['"']; ReadPair('"', tail);
      case '\\' => assert Escape(c) == "\\" + ['\\']; ReadPair('\\', tail);
      case '\n' => assert Escape(c) == "\\" + ['n']; ReadPair('n', tail);
      case '\r' => assert Escape(c) == "\\" + ['r']; ReadPair('r', tail);
      case '\t' => assert Escape(c) == "\\" + ['t']; ReadPair('t', tail);
      case _ => ReadSingle(c, tail);
    }
  }

  lemma {:induction false} ReadEscaped(value: string, more: string)
    ensures ReadQuoted(Escaped(value) + "\"" + more) == Some((value, more))
  {
    hide Escape;
    if value == "" {
      assert Escaped("") + "\"" + more == "\"" + more;
    } else {
      var c, tail := value[0], Escaped(value[1..]) + "\"" + more;
      ReadEscaped(value[1..], more);
      ReadOneChar(c, tail);
      assert Escaped(value) + "\"" + more == Escape(c) + tail;
      assert [c] + value[1..] == value;
    }
  }

  lemma ReadOneValue(value: string, more: string)
    requires more != "" && (more[0] == ' ' || more[0] == '\n')
    ensures ReadValue(Quoted(value) + more) == Some((value, more))
  {
    var text := Quoted(value) + more;
    if Plain(value) {
      assert value[0] in value;
      UntilStops(value, more, {' ', '\n'});
    } else {
      assert text[1..] == Escaped(value) + "\"" + more;
      ReadEscaped(value, more);
    }
  }

  lemma ReadOneField(f: Field, more: string)
    requires Plain(f.key) && more != "" && (more[0] == ' ' || more[0] == '\n')
    ensures var s := FieldText(f) + more;
            && |s| > 1 && s[0] == ' '
            && var (key, after) := Until(s[1..], {'='});
            && key == f.key && after != "" && ReadValue(after[1..]) == Some((f.value, more))
  {
    hide ReadValue, Quoted;
    var s, text := FieldText(f) + more, Quoted(f.value) + more;
    assert s[1..] == f.key + ("=" + text);
    UntilStops(f.key, "=" + text, {'='});
    assert ("=" + text)[1..] == text;
    ReadOneValue(f.value, more);
  }

  lemma {:induction false} SectionStart(fields: seq<Field>)
    ensures var s := Section(fields) + "\n"; s != "" && (s[0] == ' ' || s[0] == '\n')
  {
  }

  lemma ReadNextField(f: Field, more: string)
    requires Plain(f.key) && more != "" && (more[0] == ' ' || more[0] == '\n')
    ensures var rest := ReadFields(more);
            ReadFields(FieldText(f) + more) == if rest.None? then None else Some([f] + rest.value)
  {
    hide FieldText, Plain, Until, ReadValue;
    ReadOneField(f, more);
    var s := FieldText(f) + more;
    assert s != "\n" && s[0] == ' ';
    assert Field(f.key, f.value) == f;
  }

  /** Reading a line's field section recovers every key and value. */
  lemma {:induction false} FieldsAreReadBack(fields: seq<Field>)
    requires forall f :: f in fields ==> Plain(f.key)
    ensures ReadFields(Section(fields) + "\n") == Some(fields)
  {
    hide Section, FieldText, Plain;
    if fields == [] {
      SectionOfNone();
      assert "" + "\n" == "\n";
    } else {
      var f, more := fields[0], Section(fields[1..]) + "\n";
      FieldsAreReadBack(fields[1..]);
      SectionStart(fields[1..]);
      hide ReadFields;
      ReadNextField(f, more);
      SectionSplit(fields);
      assert Section(fields) + "\n" == FieldText(f) + more;
      assert fields == [f] + fields[1..];
    }
  }

  lemma SectionSplit(fields: seq<Field>)
    requires fields != []
    ensures Section(fields) == FieldText(fields[0]) + Section(fields[1..])
  {
  }

  lemma {:induction false} EscapedHasNoNewline(s: string)
    ensures '\n' !in Escaped(s)
  {
    if s != "" { EscapedHasNoNewline(s[1..]); }
  }

  /** The only newline of a field section is the one that ends its line. */
  lemma {:induction false} OneNewline(fields: seq<Field>)
    requires forall f :: f in fields ==> Plain(f.key)
    ensures '\n' !in Section(fields)
  {
    if fields != [] {
      OneNewline(fields[1..]);
      EscapedHasNoNewline(fields[0].value);
      assert Plain(fields[0].key);
    }
  }

  /** A value stands as it is exactly when it is not empty and holds no space, control
      character, quote, equals sign or backslash; any other is put in quotes. */
  lemma PlainIff(value: string)
    ensures Quoted(value) == value <==>
      value != "" && forall c :: c in value ==> c > ' ' && c !in {'"', '=', '\\'}
    ensures Quoted(value) != value ==> |Quoted(value)| >= 2 && Quoted(value)[0] == '"'
                                       && Quoted(value)[|Quoted(value)| - 1] == '"'
  {
    if !Plain(value) { EscapedIsLonger(value); }
  }

  lemma {:induction false} EscapedIsLonger(s: string)
    ensures |Escaped(s)| >= |s|
  {
    if s != "" { EscapedIsLonger(s[1..]); }
  }

  // ----- letter by letter ------------------------------------------------------------

  /** How the characters with an escape of their own are written. */
  lemma EscapesAreWritten(key: string, c: char, letter: char)
    requires (c, letter) in {('\n', 'n'), ('\r', 'r'), ('\t', 't'), ('"', '"'), ('\\', '\\')}
    ensures Section([Field(key, [c])]) == " " + key + "=\"\\" + [letter] + "\""
  {
    var f := Field(key, [c]);
    assert [f][1..] == [] && [c][1..] == "" && c in f.value && Special(c);
    assert Escaped([c]) == ['\\', letter];
    assert Quoted([c]) == "\"" + ['\\', letter] + "\"";
  }
}
