/** The string operations the metadata file relies on: split, join, lines, decimal numbers. */
module Text {
  import opened Prelude

  // ---- Split and join ----

  /** `str::split` on a character; never empty. */
  function Split(s: string, c: char): (fields: seq<string>)
    ensures |fields| > 0
  {
    if s == "" then [""]
    else
      var rest := Split(s[1..], c);
      if s[0] == c then [""] + rest else [[s[0]] + rest[0]] + rest[1..]
  }

  /** `join` with a one-character separator. */
  function Join(fields: seq<string>, c: char): string {
    if fields == [] then ""
    else if |fields| == 1 then fields[0]
    else fields[0] + [c] + Join(fields[1..], c)
  }

  lemma {:induction false} SplitField(field: string, s: string, c: char)
    requires c !in field
    ensures Split(field + [c] + s, c) == [field] + Split(s, c)
    ensures Split(field, c) == [field]
  {
    if field == "" {
      assert field + [c] + s == [c] + s;
    } else {
      SplitField(field[1..], s, c);
      assert (field + [c] + s)[1..] == field[1..] + [c] + s;
      assert field == [field[0]] + field[1..];
    }
  }

  /** Splitting undoes joining when no field holds the separator. */
  lemma {:induction false} SplitJoin(fields: seq<string>, c: char)
    requires fields != [] && forall f | f in fields :: c !in f
    ensures Split(Join(fields, c), c) == fields
  {
    hide Split;
    assert fields[0] in fields;
    if |fields| == 1 {
      SplitField(fields[0], "", c);
    } else {
      forall f | f in fields[1..] ensures c !in f { assert f in fields; }
      SplitJoin(fields[1..], c);
      SplitField(fields[0], Join(fields[1..], c), c);
    }
    assert fields == [fields[0]] + fields[1..];
  }

  /** What a field of a split holds. */
  lemma {:induction false} SplitMembers(s: string, c: char, field: string)
    requires field in Split(s, c)
    ensures c !in field && forall x | x in field :: x in s
  {
    if s != "" {
      var rest := Split(s[1..], c);
      if s[0] == c {
        if field in rest { SplitMembers(s[1..], c, field); }
      } else if field == [s[0]] + rest[0] {
        SplitMembers(s[1..], c, rest[0]);
      } else {
        SplitMembers(s[1..], c, field);
      }
    }
  }

  lemma {:induction false} JoinMembers(fields: seq<string>, c: char, x: char)
    requires x != c && x in Join(fields, c)
    ensures exists f | f in fields :: x in f
  {
    if |fields| > 1 && x !in fields[0] {
      JoinMembers(fields[1..], c, x);
    }
  }

  // ---- Lines ----

  function StripCr(line: string): string {
    if line != "" && line[|line| - 1] == '\r' then line[..|line| - 1] else line
  }

  function StripAll(lines: seq<string>): (stripped: seq<string>)
    ensures |stripped| == |lines| && forall i | 0 <= i < |lines| :: stripped[i] == StripCr(lines[i])
  {
    if lines == [] then [] else [StripCr(lines[0])] + StripAll(lines[1..])
  }

  /**
   * `str::lines`: every line ended by a newline loses it and one carriage return before it; what
   * follows the last newline is a line, untouched, unless it is empty.
   */
  function Lines(s: string): seq<string> {
    var parts := Split(s, '\n');
    var last := parts[|parts| - 1];
    StripAll(parts[..|parts| - 1]) + if last == "" then [] else [last]
  }

  lemma LinesOfJoined(lines: seq<string>)
    requires forall l | l in lines :: '\n' !in l
    ensures lines != [] ==> Lines(Join(lines, '\n') + "\n") == StripAll(lines)
  {
    if lines != [] {
      var parts := lines + [""];
      JoinAppend(lines, '\n');
      SplitJoin(parts, '\n');
      assert parts[..|parts| - 1] == lines;
    }
  }

  lemma LinesOfSplit(s: string, first: string, rest: string)
    requires Split(s, '\n') == [first] + Split(rest, '\n')
    ensures Lines(s) == [StripCr(first)] + Lines(rest)
  {
    hide Split, StripCr;
    var parts, others := Split(s, '\n'), Split(rest, '\n');
    assert parts[..|parts| - 1] == [first] + others[..|others| - 1];
    assert parts[..|parts| - 1][1..] == others[..|others| - 1];
  }

  /** These cases decide the lines of every text: a line ends at its newline, or before a carriage return ahead of it, or with the text. */
  lemma LinesMeaning(line: string, rest: string)
    requires '\n' !in line
    ensures Lines(line + "\r\n" + rest) == [line] + Lines(rest)
    ensures line == "" || line[|line| - 1] != '\r' ==> Lines(line + "\n" + rest) == [line] + Lines(rest)
    ensures Lines(line) == if line == "" then [] else [line]
  {
    hide Split, StripAll;
    SplitField(line + "\r", rest, '\n');
    assert line + "\r\n" + rest == line + "\r" + "\n" + rest;
    LinesOfSplit(line + "\r\n" + rest, line + "\r", rest);
    SplitField(line, rest, '\n');
    LinesOfSplit(line + "\n" + rest, line, rest);
    assert StripAll([]) == [];
    assert [line][..0] == [];
  }

  /** Without a final newline the last line counts all the same, and keeps a carriage return. */
  lemma LinesOfUnended(lines: seq<string>)
    requires lines != [] && (forall l | l in lines :: '\n' !in l) && lines[|lines| - 1] != ""
    ensures Lines(Join(lines, '\n')) == StripAll(lines[..|lines| - 1]) + [lines[|lines| - 1]]
  {
    hide Split, StripAll, Join;
    SplitJoin(lines, '\n');
  }

  lemma {:induction false} SplitEnded(s: string, c: char)
    ensures Split(s + [c], c) == Split(s, c) + [""]
  {
    if s == "" {
      SplitField("", "", c);
      assert "" + [c] + "" == "" + [c];
    } else {
      SplitEnded(s[1..], c);
      assert (s + [c])[1..] == s[1..] + [c];
    }
  }

  lemma {:induction false} LastField(s: string, c: char)
    requires s != "" && s[|s| - 1] != c
    ensures var parts := Split(s, c); var last := parts[|parts| - 1]; last != "" && last[|last| - 1] == s[|s| - 1]
  {
    if |s| == 1 {
      SplitField(s, "", c);
    } else {
      LastField(s[1..], c);
      var rest, parts := Split(s[1..], c), Split(s, c);
      var last := rest[|rest| - 1];
      if s[0] == c || |rest| > 1 {
        assert parts[|parts| - 1] == last;
      } else {
        assert parts == [[s[0]] + last];
      }
    }
  }

  /** A text that ends in neither a newline nor a carriage return has the same lines with a newline added. */
  lemma FinalNewlineIsOptional(s: string)
    requires s != "" && s[|s| - 1] != '\n' && s[|s| - 1] != '\r'
    ensures Lines(s + "\n") == Lines(s)
  {
    hide Split;
    var parts := Split(s, '\n');
    SplitEnded(s, '\n');
    LastField(s, '\n');
    var n := |parts| - 1;
    assert (parts + [""])[..n + 1] == parts == parts[..n] + [parts[n]];
    StripAppend(parts[..n], parts[n]);
  }

  lemma {:induction false} StripAppend(lines: seq<string>, last: string)
    ensures StripAll(lines + [last]) == StripAll(lines) + [StripCr(last)]
  {
    var all := StripAll(lines + [last]);
    assert forall i | 0 <= i < |lines| :: all[i] == StripCr(lines[i]);
  }

  lemma {:induction false} JoinAppend(fields: seq<string>, c: char)
    requires fields != []
    ensures Join(fields + [""], c) == Join(fields, c) + [c]
  {
    if |fields| > 1 {
      JoinAppend(fields[1..], c);
      assert (fields + [""])[1..] == fields[1..] + [""];
    } else {
      assert (fields + [""])[1..] == [""];
    }
  }

  lemma LineMembers(s: string, line: string)
    requires line in Lines(s)
    ensures '\n' !in line && forall x | x in line :: x in s
  {
    hide Split, StripAll;
    var parts := Split(s, '\n');
    var i :| 0 <= i < |Lines(s)| && Lines(s)[i] == line;
    SplitMembers(s, '\n', parts[i]);
    assert line == parts[i] || line == parts[i][..|parts[i]| - 1];
  }

  // ---- Decimal numbers ----

  function Digit(d: nat): char
    requires d < 10
  {
    '0' + d as char
  }

  predicate IsDigit(c: char) {
    '0' <= c <= '9'
  }

  predicate AllDigits(s: string) {
    forall i | 0 <= i < |s| :: IsDigit(s[i])
  }

  /** How an unsigned integer is displayed. */
  function Decimal(n: nat): (s: string)
    ensures s != "" && AllDigits(s)
  {
    (if n < 10 then "" else Decimal(n / 10)) + [Digit(n % 10)]
  }

  function DigitsValue(s: string): nat
    requires AllDigits(s)
  {
    if s == "" then 0 else 10 * DigitsValue(s[..|s| - 1]) + (s[|s| - 1] - '0') as nat
  }

  /** `parse` for an unsigned type with the given number of values: an optional `+`, then digits, in range. */
  function ParseUnsigned(s: string, limit: nat): (r: Option<nat>)
    ensures r.Some? ==> r.value < limit
  {
    var digits := if s != "" && s[0] == '+' then s[1..] else s;
    if digits != "" && AllDigits(digits) && DigitsValue(digits) < limit then Some(DigitsValue(digits)) else None
  }

  lemma {:induction false} DigitsOfDecimal(n: nat)
    ensures DigitsValue(Decimal(n)) == n
  {
    var s := Decimal(n);
    if n >= 10 {
      DigitsOfDecimal(n / 10);
      assert s[..|s| - 1] == Decimal(n / 10);
    } else {
      assert s[..|s| - 1] == "";
    }
  }

  /** Reading back what was displayed. */
  lemma ParseDecimal(n: nat, limit: nat)
    requires n < limit
    ensures ParseUnsigned(Decimal(n), limit) == Some(n)
  {
    DigitsOfDecimal(n);
    assert IsDigit(Decimal(n)[0]);
  }

  lemma DecimalIsInjective(a: nat, b: nat)
    requires Decimal(a) == Decimal(b)
    ensures a == b
  {
    DigitsOfDecimal(a);
    DigitsOfDecimal(b);
  }

  function Zeros(k: nat): (s: string)
    ensures |s| == k && forall i | 0 <= i < k :: s[i] == '0'
  {
    if k == 0 then "" else Zeros(k - 1) + "0"
  }

  /** The decimal numeral of `n`, with a plus sign or none and any number of zeros ahead of it. */
  ghost predicate Spells(s: string, n: nat) {
    exists k: nat :: s == Zeros(k) + Decimal(n) || s == "+" + (Zeros(k) + Decimal(n))
  }

  lemma {:induction false} LeadingZeros(k: nat, digits: string)
    requires AllDigits(digits)
    ensures AllDigits(Zeros(k) + digits) && DigitsValue(Zeros(k) + digits) == DigitsValue(digits)
    decreases |digits|, k
  {
    var s := Zeros(k) + digits;
    if digits == "" {
      assert s == Zeros(k);
      if k > 0 {
        LeadingZeros(k - 1, "");
        assert Zeros(k - 1) + "" == Zeros(k - 1);
        assert s[..|s| - 1] == Zeros(k - 1);
      }
    } else {
      var front := digits[..|digits| - 1];
      LeadingZeros(k, front);
      assert s[..|s| - 1] == Zeros(k) + front;
    }
  }

  /** Digits are the numeral of their value behind zeros. */
  lemma {:induction false} DigitsAreNumeral(s: string) returns (k: nat)
    requires s != "" && AllDigits(s)
    ensures s == Zeros(k) + Decimal(DigitsValue(s))
  {
    hide Decimal;
    var n := |s| - 1;
    var front, d := s[..n], (s[n] - '0') as nat;
    var v := DigitsValue(front);
    assert s == front + [Digit(d)];
    NumeralGrows(v, d);
    k := 0;
    if front != "" {
      k := DigitsAreNumeral(front);
      if v == 0 {
        NumeralGrows(0, 0);
        k := k + 1;
        assert front == Zeros(k);
      } else {
        assert Zeros(k) + Decimal(v) + [Digit(d)] == Zeros(k) + (Decimal(v) + [Digit(d)]);
      }
    }
  }

  lemma NumeralGrows(v: nat, d: nat)
    requires d < 10
    ensures Decimal(10 * v + d) == (if v == 0 then "" else Decimal(v)) + [Digit(d)]
  {
  }

  /** A numeral is read exactly as what it spells, if that is below the limit; nothing else is read. */
  lemma ParseMeaning(s: string, limit: nat, n: nat)
    ensures ParseUnsigned(s, limit) == Some(n) <==> n < limit && Spells(s, n)
  {
    hide Zeros, Decimal, DigitsValue;
    if ParseUnsigned(s, limit) == Some(n) {
      var digits := if s[0] == '+' then s[1..] else s;
      var k := DigitsAreNumeral(digits);
      assert s[0] == '+' ==> s == "+" + digits;
    }
    if k: nat :| s == Zeros(k) + Decimal(n) || s == "+" + (Zeros(k) + Decimal(n)) {
      DigitsOfDecimal(n);
      LeadingZeros(k, Decimal(n));
      var digits := Zeros(k) + Decimal(n);
      assert IsDigit(digits[0]);
      assert s != digits ==> s[1..] == digits;
    }
  }

  // ---- White space ----

  /** The code points with the Unicode property `White_Space`. */
  const WHITE_SPACE: set<int> := {
    0x9, 0xA, 0xB, 0xC, 0xD, 0x20, 0x85, 0xA0, 0x1680, 0x2000, 0x2001, 0x2002, 0x2003, 0x2004, 0x2005, 0x2006, 0x2007,
    0x2008, 0x2009, 0x200A, 0x2028, 0x2029, 0x202F, 0x205F, 0x3000}

  lemma BlankMeaning(s: string)
    ensures IsBlank(s) <==> forall i | 0 <= i < |s| :: s[i] as int in WHITE_SPACE
  {
    forall c: char ensures IsWhitespace(c) <==> c as int in WHITE_SPACE { WhitespaceIsListed(c); }
    hide IsWhitespace;
  }

  lemma WhitespaceIsListed(c: char)
    ensures IsWhitespace(c) <==> c as int in WHITE_SPACE
  {
  }

  /** The Unicode property `White_Space`. */
  predicate IsWhitespace(c: char) {
    || '\U{9}' <= c <= '\U{D}' || c == ' ' || c == '\U{85}' || c == '\U{A0}' || c == '\U{1680}'
    || '\U{2000}' <= c <= '\U{200A}' || c == '\U{2028}' || c == '\U{2029}' || c == '\U{202F}'
    || c == '\U{205F}' || c == '\U{3000}'
  }

  /** `trim().is_empty()`. */
  predicate IsBlank(s: string) {
    forall i | 0 <= i < |s| :: IsWhitespace(s[i])
  }
}
