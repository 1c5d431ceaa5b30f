/**
 The string operations of Rust's standard library that riku's file formats are
 built from, and the laws that let a reader recover what a writer joined.
 */
module Text {
  import opened Wrappers

  // ---- Character classes ----

  /** `char::is_whitespace`: Unicode's `White_Space` property. */
  predicate IsWhite(c: char) {
    var n := c as int;
    || 0x9 <= n <= 0xD || n == 0x20 || n == 0x85 || n == 0xA0 || n == 0x1680
    || 0x2000 <= n <= 0x200A || n == 0x2028 || n == 0x2029 || n == 0x202F || n == 0x205F || n == 0x3000
  }

  /** `char::is_control`: Unicode's `Cc` category. */
  predicate IsControl(c: char) {
    var n := c as int;
    n <= 0x1F || 0x7F <= n <= 0x9F
  }

  predicate IsDigit(c: char) { '0' <= c <= '9' }

  predicate IsLower(c: char) { 'a' <= c <= 'z' }

  predicate IsAlnum(c: char) { IsDigit(c) || IsLower(c) || 'A' <= c <= 'Z' }

  predicate StartsWith(s: string, prefix: string) { prefix <= s }

  predicate EndsWith(s: string, suffix: string) {
    |suffix| <= |s| && s[|s| - |suffix|..] == suffix
  }

  predicate Contains(s: string, part: string)
    requires part != ""
  {
    Find(s, part).Some?
  }

  // ---- Trimming ----

  function TrimStart(s: string): string {
    if s != "" && IsWhite(s[0]) then TrimStart(s[1..]) else s
  }

  function TrimEnd(s: string): string {
    if s != "" && IsWhite(s[|s| - 1]) then TrimEnd(s[..|s| - 1]) else s
  }

  function Trim(s: string): string { TrimEnd(TrimStart(s)) }

  predicate Trimmed(s: string) {
    s != "" ==> !IsWhite(s[0]) && !IsWhite(s[|s| - 1])
  }

  lemma {:induction false} TrimEndIsPrefix(s: string)
    ensures TrimEnd(s) <= s
    ensures TrimEnd(s) != "" ==> !IsWhite(TrimEnd(s)[|TrimEnd(s)| - 1])
  {
    if s != "" && IsWhite(s[|s| - 1]) {
      TrimEndIsPrefix(s[..|s| - 1]);
    }
  }

  lemma {:induction false} TrimStartIsTrimmed(s: string)
    ensures TrimStart(s) != "" ==> !IsWhite(TrimStart(s)[0])
  {
    if s != "" && IsWhite(s[0]) {
      TrimStartIsTrimmed(s[1..]);
    }
  }

  /** `trim` gives a trimmed string and is the identity on one. */
  lemma {:induction false} TrimIsTrimmed(s: string)
    ensures Trimmed(Trim(s))
    ensures Trimmed(s) <==> Trim(s) == s
  {
    TrimStartIsTrimmed(s);
    TrimEndIsPrefix(TrimStart(s));
  }

  lemma {:induction false} TrimStays(s: string)
    requires s != "" && !IsWhite(s[0])
    ensures Trim(s) != "" && Trim(s)[0] == s[0]
  {
    TrimEndStays(s);
  }

  lemma {:induction false} TrimEndStays(s: string)
    requires s != "" && !IsWhite(s[0])
    ensures TrimEnd(s) != "" && TrimEnd(s)[0] == s[0]
  {
    if IsWhite(s[|s| - 1]) {
      TrimEndStays(s[..|s| - 1]);
    }
  }

  lemma {:induction false} TrimIsPart(s: string)
    ensures forall c <- Trim(s) :: c in s
  {
    TrimStartIsPart(s);
    TrimEndIsPrefix(TrimStart(s));
  }

  lemma {:induction false} TrimStartIsPart(s: string)
    ensures forall c <- TrimStart(s) :: c in s
  {
    if s != "" && IsWhite(s[0]) {
      TrimStartIsPart(s[1..]);
    }
  }

  // ---- Splitting and joining ----

  /** The first position at which `sep` occurs in `s`. */
  function Find(s: string, sep: string): (at: Option<nat>)
    requires sep != ""
    ensures at.Some? ==> at.value + |sep| <= |s|
  {
    if |s| < |sep| then None
    else if sep <= s then Some(0)
    else
      match Find(s[1..], sep)
      case Some(i) => Some(i + 1)
      case None => None
  }

  /** `str::split_once`. */
  function SplitOnce(s: string, sep: string): Option<(string, string)>
    requires sep != ""
  {
    match Find(s, sep)
    case Some(i) => Some((s[..i], s[i + |sep|..]))
    case None => None
  }

  /** `str::split`. */
  function Split(s: string, sep: string): (parts: seq<string>)
    requires sep != ""
    ensures parts != []
  {
    match Find(s, sep)
    case Some(i) => [s[..i]] + Split(s[i + |sep|..], sep)
    case None => [s]
  }

  function Join(parts: seq<string>, sep: string): string {
    if parts == [] then ""
    else if |parts| == 1 then parts[0]
    else parts[0] + sep + Join(parts[1..], sep)
  }

  lemma {:induction false} FindNothing(s: string, sep: string)
    requires sep != "" && sep[0] !in s
    ensures Find(s, sep) == None
  {
    if |s| >= |sep| {
      FindNothing(s[1..], sep);
    }
  }

  lemma {:induction false} FindAfter(head: string, sep: string, tail: string)
    requires sep != "" && sep[0] !in head
    ensures Find(head + sep + tail, sep) == Some(|head|)
    ensures SplitOnce(head + sep + tail, sep) == Some((head, tail))
  {
    var s := head + sep + tail;
    if head == "" {
      assert s == sep + tail;
    } else {
      assert s[1..] == head[1..] + sep + tail;
      assert s[0] == head[0];
      assert head[0] in head;
      FindAfter(head[1..], sep, tail);
    }
    assert s[..|head|] == head && s[|head| + |sep|..] == tail;
  }

  /** Splitting what was joined gives back the parts, when no part can start the separator. */
  lemma {:induction false} SplitJoin(parts: seq<string>, sep: string)
    requires sep != "" && parts != []
    requires forall part <- parts :: sep[0] !in part
    ensures Split(Join(parts, sep), sep) == parts
  {
    assert parts[0] in parts;
    if |parts| == 1 {
      FindNothing(parts[0], sep);
    } else {
      FindAfter(parts[0], sep, Join(parts[1..], sep));
      SplitJoin(parts[1..], sep);
    }
  }

  lemma {:induction false} FindHits(s: string, sep: string)
    requires sep != "" && Find(s, sep).Some?
    ensures s[Find(s, sep).value..][..|sep|] == sep
  {
    if !(sep <= s) {
      FindHits(s[1..], sep);
      var i := Find(s[1..], sep).value;
      assert s[1..][i..] == s[i + 1..];
    } else {
      assert s[0..] == s;
    }
  }

  /** Joining what was split gives back the text. */
  lemma {:induction false} JoinSplit(s: string, sep: string)
    requires sep != ""
    ensures Join(Split(s, sep), sep) == s
  {
    if Find(s, sep).Some? {
      var i := Find(s, sep).value;
      var rest := s[i + |sep|..];
      FindHits(s, sep);
      JoinSplit(rest, sep);
      assert Split(s, sep)[1..] == Split(rest, sep);
      assert s == s[..i] + s[i..][..|sep|] + rest;
    }
  }

  lemma {:induction false} JoinChars(parts: seq<string>, sep: string, c: char)
    requires c in Join(parts, sep)
    ensures c in sep || exists part <- parts :: c in part
  {
    if |parts| >= 1 {
      assert parts[0] in parts;
      if |parts| > 1 && c !in parts[0] && c !in sep {
        JoinChars(parts[1..], sep, c);
      }
    }
  }

  lemma {:induction false} FirstHit(s: string, c: char)
    requires Find(s, [c]).Some?
    ensures s[Find(s, [c]).value] == c && c !in s[..Find(s, [c]).value]
  {
    if !([c] <= s) {
      FirstHit(s[1..], c);
      var i := Find(s[1..], [c]).value;
      assert s[..i + 1] == [s[0]] + s[1..][..i];
      assert s[0] != c;
    }
  }

  lemma {:induction false} NoHit(s: string, c: char)
    requires Find(s, [c]).None?
    ensures c !in s
  {
    if s != "" {
      NoHit(s[1..], c);
      assert s[0] != c;
    }
  }

  // ---- Lines ----

  function StripCr(line: string): string {
    if EndsWith(line, "\r") then line[..|line| - 1] else line
  }

  /** `str::lines`: split at `\n` or `\r\n`, with no line after a final newline. */
  function Lines(s: string): seq<string> {
    if s == "" then []
    else
      match Find(s, "\n")
      case Some(i) => [StripCr(s[..i])] + Lines(s[i + 1..])
      case None => [s]
  }

  /** A newline-terminated line is read first, less a final `\r`. */
  lemma {:induction false} LinesStep(line: string, rest: string)
    requires '\n' !in line
    ensures Lines(line + "\n" + rest) == [StripCr(line)] + Lines(rest)
  {
    FindAfter(line, "\n", rest);
  }

  /** A newline-terminated line that does not end in `\r` reads back as itself. */
  lemma {:induction false} LinesCons(line: string, rest: string)
    requires '\n' !in line && !EndsWith(line, "\r")
    ensures Lines(line + "\n" + rest) == [line] + Lines(rest)
  {
    LinesStep(line, rest);
  }

  /** Every line of `lines` followed by a newline. */
  function Unlines(lines: seq<string>): string {
    if lines == [] then "" else lines[0] + "\n" + Unlines(lines[1..])
  }

  lemma {:induction false} LinesUnlines(lines: seq<string>)
    requires forall line <- lines :: '\n' !in line && !EndsWith(line, "\r")
    ensures Lines(Unlines(lines)) == lines
  {
    if lines != [] {
      assert lines[0] in lines;
      LinesCons(lines[0], Unlines(lines[1..]));
      LinesUnlines(lines[1..]);
    }
  }

  lemma {:induction false} UnlinesAppend(a: seq<string>, b: seq<string>)
    ensures Unlines(a + b) == Unlines(a) + Unlines(b)
  {
    if a == [] {
      assert a + b == b;
    } else {
      assert (a + b)[1..] == a[1..] + b;
      UnlinesAppend(a[1..], b);
    }
  }

  lemma {:induction false} LinesHaveNoNewline(s: string)
    ensures forall line <- Lines(s) :: '\n' !in line
    decreases |s|
  {
    if s != "" {
      match Find(s, "\n")
      case Some(i) =>
        FirstHit(s, '\n');
        LinesHaveNoNewline(s[i + 1..]);
      case None =>
        NoHit(s, '\n');
    }
  }

  lemma {:induction false} FirstLine(a: string) returns (head: string, tail: string)
    requires a != "" && a[|a| - 1] == '\n'
    ensures a == head + "\n" + tail && '\n' !in head
    ensures tail == "" || tail[|tail| - 1] == '\n'
  {
    if Find(a, "\n").None? {
      NoHit(a, '\n');
    }
    FirstHit(a, '\n');
    var i := Find(a, "\n").value;
    head, tail := a[..i], a[i + 1..];
  }

  lemma {:induction false} LinesAppendStep(head: string, tail: string, b: string)
    requires '\n' !in head && Lines(tail + b) == Lines(tail) + Lines(b)
    ensures Lines(head + "\n" + tail + b) == Lines(head + "\n" + tail) + Lines(b)
  {
    hide Lines, StripCr;
    LinesStep(head, tail);
    LinesStep(head, tail + b);
    assert head + "\n" + tail + b == head + "\n" + (tail + b);
  }

  /** Text after a line end starts a line of its own. */
  lemma {:induction false} LinesAppend(a: string, b: string)
    requires a == "" || a[|a| - 1] == '\n'
    ensures Lines(a + b) == Lines(a) + Lines(b)
    decreases |a|
  {
    if a == "" {
      assert Lines(a) == [];
      hide Lines;
      assert a + b == b;
    } else {
      hide Lines, Find;
      var head, tail := FirstLine(a);
      LinesAppend(tail, b);
      LinesAppendStep(head, tail, b);
    }
  }

  // ---- Decimal numbers ----

  const U16_MAX: nat := 0xFFFF
  const U32_MAX: nat := 0xFFFF_FFFF
  const U64_MAX: nat := 0xFFFF_FFFF_FFFF_FFFF

  function Digit(d: nat): (c: char)
    requires d < 10
    ensures IsDigit(c) && c as int - '0' as int == d
  {
    '0' + d as char
  }

  function Decimal(n: nat): (s: string)
    ensures s != "" && forall c <- s :: IsDigit(c)
  {
    if n < 10 then [Digit(n)] else Decimal(n / 10) + [Digit(n % 10)]
  }

  function DecimalValue(s: string): nat
    requires forall c <- s :: IsDigit(c)
  {
    if s == "" then 0
    else
      var last := s[|s| - 1];
      assert last in s && IsDigit(last);
      10 * DecimalValue(s[..|s| - 1]) + (last as int - '0' as int)
  }

  /** `parse` of an unsigned integer type: an optional `+`, then digits within range. */
  function ParseUnsigned(s: string, max: nat): Option<nat> {
    var digits := if StartsWith(s, "+") then s[1..] else s;
    if digits != "" && (forall c <- digits :: IsDigit(c)) && DecimalValue(digits) <= max
    then Some(DecimalValue(digits))
    else None
  }

  lemma {:induction false} ValueOfDecimal(n: nat)
    ensures DecimalValue(Decimal(n)) == n
  {
    if n >= 10 {
      ValueOfDecimal(n / 10);
      assert Decimal(n)[..|Decimal(n)| - 1] == Decimal(n / 10);
    }
  }

  /** A number that fits the type reads back from its decimal text. */
  lemma {:induction false} ParseDecimal(n: nat, max: nat)
    requires n <= max
    ensures ParseUnsigned(Decimal(n), max) == Some(n)
  {
    ValueOfDecimal(n);
    assert Decimal(n)[0] in Decimal(n);
  }

  lemma {:induction false} DecimalInjective(a: nat, b: nat)
    requires Decimal(a) == Decimal(b)
    ensures a == b
  {
    ValueOfDecimal(a);
    ValueOfDecimal(b);
  }

  lemma {:induction false} DecimalTrimmed(n: nat)
    ensures Trimmed(Decimal(n)) && '\n' !in Decimal(n)
  {
    var s := Decimal(n);
    assert s[0] in s && s[|s| - 1] in s;
  }
}
