/** Durations in the filter grammar (`parse_duration`, src/filter.rs) and in table
    cells (`humanize`, src/columns.rs). */
module Durations {
  import opened Wrappers
  import opened Text

  const I64_MAX := 0x7FFF_FFFF_FFFF_FFFF

  function UnitSecs(c: char): Option<nat> {
    if c == 's' then Some(1)
    else if c == 'm' then Some(60)
    else if c == 'h' then Some(3_600)
    else if c == 'd' then Some(86_400)
    else if c == 'w' then Some(604_800)
    else None
  }

  function Checked(n: int): Option<int> { if -I64_MAX - 1 <= n <= I64_MAX then Some(n) else None }

  /** `str::parse::<i64>`: an optional sign, at least one digit, no overflow. */
  function ParseI64(s: string): Option<int> {
    var signed := s != "" && (s[0] == '+' || s[0] == '-');
    var digits := if signed then s[1..] else s;
    var v := Decimal(digits);
    if digits == "" || v.None? then None
    else
      var n: int := v.value;
      Checked(if signed && s[0] == '-' then -n else n)
  }

  /** Add `num` units to the running total, with the source's three overflow checks. */
  function AddPart(total: int, num: string, unit: nat): Option<int> {
    var n := ParseI64(num);
    var scaled := if n.Some? then Checked(n.value * unit) else None;
    if scaled.Some? then Checked(total + scaled.value) else None
  }

  function ParseRest(rest: string, total: int, num: string): Option<int>
    decreases |rest|
  {
    if rest == "" then (if num == "" then Some(total) else None)
    else if IsDigit(rest[0]) then ParseRest(rest[1..], total, num + [rest[0]])
    else
      var unit := UnitSecs(rest[0]);
      var next := if unit.Some? && num != "" then AddPart(total, num, unit.value) else None;
      if next.Some? then ParseRest(rest[1..], next.value, "") else None
  }

  function Parsed(s: string): Option<int> {
    var t := Trim(s);
    var plain := ParseI64(t);
    if t == "" then None
    else if plain.Some? then (if plain.value >= 0 then plain else None)
    else ParseRest(t, 0, "")
  }

  method ParseDuration(s: string) returns (r: Option<int>)
    ensures r == Parsed(s)
  {
    var t := Trim(s);
    if t == "" { return None; }
    var plain := ParseI64(t);
    if plain.Some? { return if plain.value >= 0 then plain else None; }
    var total, num := 0, "";
    for i := 0 to |t|
      invariant ParseRest(t[i..], total, num) == ParseRest(t, 0, "")
    {
      assert t[i..][0] == t[i] && t[i..][1..] == t[i + 1..];
      if IsDigit(t[i]) {
        num := num + [t[i]];
      } else {
        var unit := UnitSecs(t[i]);
        if unit.None? || num == "" { return None; }
        var next := AddPart(total, num, unit.value);
        if next.None? { return None; }
        total, num := next.value, "";
      }
    }
    return if num == "" then Some(total) else None;
  }

  // ----- what the grammar denotes ------------------------------------------------

  datatype Part = Part(digits: string, unit: char)

  predicate WellFormed(parts: seq<Part>) {
    forall p :: p in parts ==> p.digits != "" && AllDigits(p.digits) && UnitSecs(p.unit).Some?
  }

  function Written(parts: seq<Part>): string {
    if parts == [] then "" else parts[0].digits + [parts[0].unit] + Written(parts[1..])
  }

  function Secs(p: Part): nat
    requires AllDigits(p.digits) && UnitSecs(p.unit).Some?
  {
    Decimal(p.digits).value * UnitSecs(p.unit).value
  }

  function Sum(parts: seq<Part>): nat
    requires WellFormed(parts)
  {
    if parts == [] then 0 else Secs(parts[0]) + Sum(parts[1..])
  }

  lemma {:induction false} ReadDigits(d: string, more: string, total: int, num: string)
    requires AllDigits(d)
    ensures ParseRest(d + more, total, num) == ParseRest(more, total, num + d)
    decreases |d|
  {
    if d == "" {
      assert d + more == more && num + d == num;
    } else {
      assert (d + more)[1..] == d[1..] + more && num + [d[0]] + d[1..] == num + d;
      assert d[0] in d;
      ReadDigits(d[1..], more, total, num + [d[0]]);
    }
  }

  lemma PartFits(total: nat, p: Part)
    requires p.digits != "" && AllDigits(p.digits) && UnitSecs(p.unit).Some?
    ensures AddPart(total, p.digits, UnitSecs(p.unit).value)
         == if total + Secs(p) <= I64_MAX then Some(total + Secs(p)) else None
    ensures !IsDigit(p.unit)
  {
    var n, u := Decimal(p.digits).value, UnitSecs(p.unit).value;
    assert p.digits[0] in p.digits;
    assert n <= n * u;
  }

  lemma {:induction false} ReadParts(parts: seq<Part>, total: nat)
    requires WellFormed(parts) && total <= I64_MAX
    ensures ParseRest(Written(parts), total, "")
         == if total + Sum(parts) <= I64_MAX then Some(total + Sum(parts)) else None
  {
    hide AddPart, Secs, Decimal, ParseI64, UnitSecs;
    if parts != [] {
      var p, more := parts[0], Written(parts[1..]);
      assert p in parts;
      assert Written(parts) == p.digits + ([p.unit] + more);
      ReadDigits(p.digits, [p.unit] + more, total, "");
      assert "" + p.digits == p.digits && ([p.unit] + more)[1..] == more;
      PartFits(total, p);
      if total + Secs(p) <= I64_MAX { ReadParts(parts[1..], total + Secs(p)); }
    }
  }

  lemma {:induction false} WrittenEdges(parts: seq<Part>)
    requires WellFormed(parts) && parts != []
    ensures var s := Written(parts); s != "" && IsDigit(s[0]) && UnitSecs(s[|s| - 1]).Some?
  {
    hide Decimal;
    var p, more := parts[0], Written(parts[1..]);
    assert p in parts && p.digits[0] in p.digits;
    assert Written(parts) == p.digits + ([p.unit] + more);
    if |parts| > 1 { WrittenEdges(parts[1..]); } else { assert more == ""; }
  }

  lemma EdgesAreNotNumbers(s: string)
    requires s != "" && IsDigit(s[0]) && UnitSecs(s[|s| - 1]).Some?
    ensures Trim(s) == s && ParseI64(s) == None
  {
    assert s[|s| - 1] in s;
  }

  /** Completeness: every well-formed list of parts is read as its exact sum, or
      refused when the sum does not fit a signed 64-bit integer. */
  lemma WellFormedIsRead(parts: seq<Part>)
    requires WellFormed(parts) && parts != []
    ensures Parsed(Written(parts)) == if Sum(parts) <= I64_MAX then Some(Sum(parts)) else None
  {
    hide Trim, ParseI64, ParseRest;
    WrittenEdges(parts);
    EdgesAreNotNumbers(Written(parts));
    ReadParts(parts, 0);
  }

  lemma UnitStep(rest: string, total: nat, num: string)
    requires rest != "" && !IsDigit(rest[0]) && AllDigits(num) && ParseRest(rest, total, num).Some?
    ensures num != "" && UnitSecs(rest[0]).Some?
    ensures var next := total + Secs(Part(num, rest[0]));
            ParseRest(rest, total, num) == ParseRest(rest[1..], next, "")
  {
    hide AddPart, Secs, Decimal, ParseI64, UnitSecs, IsDigit;
    assert num != "" && UnitSecs(rest[0]).Some?;
    PartFits(total, Part(num, rest[0]));
  }

  lemma PartFirst(num: string, rest: string, more: seq<Part>)
    requires rest != "" && num != "" && AllDigits(num) && UnitSecs(rest[0]).Some?
    requires WellFormed(more) && rest[1..] == Written(more)
    ensures var parts := [Part(num, rest[0])] + more;
            WellFormed(parts) && num + rest == Written(parts)
            && Sum(parts) == Secs(Part(num, rest[0])) + Sum(more)
  {
    hide Secs, Decimal, UnitSecs, IsDigit;
    var parts := [Part(num, rest[0])] + more;
    assert parts[1..] == more;
    assert num + rest == num + [rest[0]] + rest[1..];
  }

  lemma {:induction false} ReadMeansParts(rest: string, total: nat, num: string) returns (parts: seq<Part>)
    requires ParseRest(rest, total, num).Some? && AllDigits(num)
    ensures WellFormed(parts) && num + rest == Written(parts)
    ensures ParseRest(rest, total, num) == Some(total + Sum(parts))
    decreases |rest|
  {
    hide AddPart, Secs, Decimal, ParseI64, UnitSecs;
    if rest == "" {
      parts := [];
    } else if IsDigit(rest[0]) {
      parts := ReadMeansParts(rest[1..], total, num + [rest[0]]);
      assert num + [rest[0]] + rest[1..] == num + rest;
    } else {
      UnitStep(rest, total, num);
      var more := ReadMeansParts(rest[1..], total + Secs(Part(num, rest[0])), "");
      assert "" + rest[1..] == rest[1..];
      PartFirst(num, rest, more);
      parts := [Part(num, rest[0])] + more;
    }
  }

  /** Soundness: an accepted duration that is not a bare number of seconds is a
      list of parts and its value their sum. */
  lemma AcceptedIsWellFormed(s: string)
    requires ParseI64(Trim(s)).None? && Parsed(s).Some?
    ensures exists parts :: parts != [] && WellFormed(parts) && Trim(s) == Written(parts)
                            && Parsed(s) == Some(Sum(parts)) && Sum(parts) <= I64_MAX
  {
    hide Decimal, ParseI64, AddPart, Secs;
    var t := Trim(s);
    var parts := ReadMeansParts(t, 0, "");
    assert "" + t == t;
    assert parts == [] ==> Written(parts) == "";
    ReadParts(parts, 0);
    assert 0 + Sum(parts) == Sum(parts);
  }

  /** A bare number of seconds, with or without a sign: exactly those of 0 and above that fit
      64 bits are read. */
  lemma BareNumberIsRead(sign: string, digits: string)
    requires sign in {"", "+", "-"} && digits != "" && AllDigits(digits)
    ensures var n := Decimal(digits).value;
            Parsed(sign + digits) == if n == 0 || (sign != "-" && n <= I64_MAX) then Some(n) else None
  {
    hide Decimal;
    var t, n := sign + digits, Decimal(digits).value;
    NumberIsTrimmed(sign, digits);
    assert digits[0] in digits && t[0] == if sign == "" then digits[0] else sign[0];
    assert (if sign == "" then t else t[1..]) == digits;
    if sign == "" && n > I64_MAX {
      ReadDigits(digits, "", 0, "");
      assert digits + "" == digits && "" + digits == digits;
    }
  }

  lemma NumberIsTrimmed(sign: string, digits: string)
    requires sign in {"", "+", "-"} && digits != "" && AllDigits(digits)
    ensures Trim(sign + digits) == sign + digits
  {
    var t := sign + digits;
    assert digits[0] in digits && digits[|digits| - 1] in digits;
    assert t[|t| - 1] == digits[|digits| - 1] && t[0] == if sign == "" then digits[0] else sign[0];
  }

  // ----- printing ------------------------------------------------------------------

  function Humanize(secs: nat): string {
    var d, h, m, s := secs / 86_400, secs % 86_400 / 3600, secs % 3600 / 60, secs % 60;
    if d > 0 then
      if h > 0 && d < 7 then Digits(d) + "d" + Digits(h) + "h" else Digits(d) + "d"
    else if h > 0 then
      if m > 0 then Digits(h) + "h" + Digits(m) + "m" else Digits(h) + "h"
    else if m > 0 then Digits(m) + "m"
    else Digits(s) + "s"
  }

  function Kept(secs: nat): nat {
    if secs < 60 then secs
    else if secs < 86_400 then secs - secs % 60
    else if secs < 7 * 86_400 then secs - secs % 3600
    else secs - secs % 86_400
  }

  function PartOf(n: nat, unit: char): (p: Part)
    requires UnitSecs(unit).Some?
    ensures WellFormed([p]) && Secs(p) == n * UnitSecs(unit).value
  {
    DecimalOfDigits(n);
    Part(Digits(n), unit)
  }

  lemma OnePart(n: nat, unit: char)
    requires UnitSecs(unit).Some? && n * UnitSecs(unit).value <= I64_MAX
    ensures Parsed(Digits(n) + [unit]) == Some(n * UnitSecs(unit).value)
  {
    hide Parsed, Secs, Digits;
    var p := PartOf(n, unit);
    assert [p][1..] == [] && Written([p]) == p.digits + [p.unit] + "" && Sum([p]) == Secs(p) + Sum([]);
    assert p.digits + [p.unit] + "" == p.digits + [p.unit];
    WellFormedIsRead([p]);
  }

  /** What one part of each unit is worth. */
  lemma UnitsAreWorth(n: nat)
    requires 604_800 * n <= I64_MAX
    ensures Parsed(Digits(n) + "s") == Some(n) && Parsed(Digits(n) + "m") == Some(60 * n)
    ensures Parsed(Digits(n) + "h") == Some(60 * 60 * n) && Parsed(Digits(n) + "d") == Some(24 * 60 * 60 * n)
    ensures Parsed(Digits(n) + "w") == Some(7 * 24 * 60 * 60 * n)
  {
    hide Parsed, Digits;
    OnePart(n, 's');
    OnePart(n, 'm');
    OnePart(n, 'h');
    OnePart(n, 'd');
    OnePart(n, 'w');
  }

  lemma TwoParts(n: nat, unit: char, n': nat, unit': char)
    requires UnitSecs(unit).Some? && UnitSecs(unit').Some?
    requires n * UnitSecs(unit).value + n' * UnitSecs(unit').value <= I64_MAX
    ensures Parsed(Digits(n) + [unit] + Digits(n') + [unit'])
         == Some(n * UnitSecs(unit).value + n' * UnitSecs(unit').value)
  {
    hide Parsed, Secs, Digits;
    var p, q := PartOf(n, unit), PartOf(n', unit');
    assert [q][1..] == [] && Written([q]) == q.digits + [q.unit] + "" && Sum([q]) == Secs(q) + Sum([]);
    assert q.digits + [q.unit] + "" == q.digits + [q.unit];
    assert [p, q][1..] == [q] && Written([p, q]) == p.digits + [p.unit] + Written([q]);
    assert p.digits + [p.unit] + Written([q]) == p.digits + [p.unit] + q.digits + [q.unit];
    WellFormedIsRead([p, q]);
  }

  lemma Per60(q: nat, r: nat)
    requires r < 60
    ensures (q * 60 + r) / 60 == q && (q * 60 + r) % 60 == r
  {
  }

  lemma Per3600(q: nat, r: nat)
    requires r < 3600
    ensures (q * 3600 + r) / 3600 == q && (q * 3600 + r) % 3600 == r
  {
  }

  lemma Per86400(q: nat, r: nat)
    requires r < 86400
    ensures (q * 86400 + r) / 86400 == q && (q * 86400 + r) % 86400 == r
  {
  }

  lemma FieldsAreUnique(d: nat, h: nat, m: nat, s: nat)
    requires h < 24 && m < 60 && s < 60
    ensures var secs := d * 86_400 + h * 3600 + m * 60 + s;
            && secs / 86_400 == d && secs % 86_400 / 3600 == h && secs % 3600 / 60 == m && secs % 60 == s
            && secs % 3600 == m * 60 + s && secs % 86_400 == h * 3600 + m * 60 + s
  {
    var secs := d * 86_400 + h * 3600 + m * 60 + s;
    Per86400(d, h * 3600 + m * 60 + s);
    Per3600(h, m * 60 + s);
    Per3600(d * 24 + h, m * 60 + s);
    Per60(m, s);
    Per60(d * 1440 + h * 60 + m, s);
  }

  /** The four fields `humanize` splits its argument into, as one number. */
  lemma Fields(secs: nat)
    ensures var d, h, m, s := secs / 86_400, secs % 86_400 / 3600, secs % 3600 / 60, secs % 60;
            && secs == d * 86_400 + h * 3600 + m * 60 + s && h < 24 && m < 60 && s < 60
            && secs % 3600 == m * 60 + s && secs % 86_400 == h * 3600 + m * 60 + s
  {
    var d, x := secs / 86_400, secs % 86_400;
    var h, y := x / 3600, x % 3600;
    FieldsAreUnique(d, h, y / 60, y % 60);
  }

  lemma KeptArithmetic(secs: nat)
    ensures var d, h, m := secs / 86_400, secs % 86_400 / 3600, secs % 3600 / 60;
            Kept(secs) == if d >= 7 then d * 86_400 else if d > 0 then d * 86_400 + h * 3600
                          else if h > 0 || m > 0 then h * 3600 + m * 60 else secs
  {
    Fields(secs);
  }

  lemma KeptPrintsAlike(secs: nat)
    ensures Humanize(Kept(secs)) == Humanize(secs)
  {
    hide Digits, Kept;
    KeptArithmetic(secs);
    Fields(secs);
    var d, h, m := secs / 86_400, secs % 86_400 / 3600, secs % 3600 / 60;
    if d >= 7 {
      FieldsAreUnique(d, 0, 0, 0);
    } else if d > 0 {
      FieldsAreUnique(d, h, 0, 0);
    } else if h > 0 || m > 0 {
      FieldsAreUnique(0, h, m, 0);
    }
  }

  /** Reading a printed duration loses less than the last unit printed, and
      printing what was read changes nothing. */
  lemma HumanizeRoundTrip(secs: nat)
    requires secs <= I64_MAX
    ensures Parsed(Humanize(secs)) == Some(Kept(secs))
    ensures Kept(secs) <= secs
    ensures secs - Kept(secs) < if secs < 86_400 then 60 else if secs < 7 * 86_400 then 3600 else 86_400
    ensures Humanize(Kept(secs)) == Humanize(secs)
  {
    hide Parsed, Digits;
    KeptArithmetic(secs);
    KeptPrintsAlike(secs);
    var d, h, m := secs / 86_400, secs % 86_400 / 3600, secs % 3600 / 60;
    if d > 0 {
      if h > 0 && d < 7 { TwoParts(d, 'd', h, 'h'); } else { OnePart(d, 'd'); }
    } else if h > 0 {
      if m > 0 { TwoParts(h, 'h', m, 'm'); } else { OnePart(h, 'h'); }
    } else if m > 0 {
      OnePart(m, 'm');
    } else {
      OnePart(secs, 's');
    }
  }
}
