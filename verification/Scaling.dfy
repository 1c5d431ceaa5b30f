/**
 Worker scaling (crates/riku-deploy/src/scaling.rs, worker_control.rs and
 workers/scaling.rs): the SCALING file, its deltas, and the enabled workers,
 which are to be numbered 1 to N without gaps.
 */
module Scaling {
  import opened Wrappers
  import opened Text

  type U32 = n: nat | n <= U32_MAX
  type Counts = map<string, U32>

  const WRAP: nat := U32_MAX + 1

  datatype Worker = Worker(app: string, kind: string, ordinal: nat)

  // ---- The SCALING file ----

  /** One `kind=count` line; comments, blank lines and unreadable counts give nothing. */
  function ParseLine(raw: string): Option<(string, U32)> {
    var line := Trim(raw);
    if line == "" || StartsWith(line, "#") then None
    else
      match SplitOnce(line, "=")
      case None => None
      case Some((key, value)) =>
        match ParseUnsigned(Trim(value), U32_MAX)
        case Some(count) => if count <= U32_MAX then Some((Trim(key), count)) else None
        case None => None
  }

  /** `read_counts`: of several lines for a kind the last one wins. */
  function CountsOf(lines: seq<string>): Counts {
    if lines == [] then map[]
    else
      var earlier := CountsOf(lines[..|lines| - 1]);
      match ParseLine(lines[|lines| - 1])
      case Some((kind, count)) => earlier[kind := count]
      case None => earlier
  }

  /** `read_scaling_count`: of several lines for a kind the first one wins, and a missing kind counts 1. */
  function FirstCount(lines: seq<string>, kind: string): U32 {
    if lines == [] then 1
    else
      match ParseLine(lines[0])
      case Some((found, count)) => if found == kind then count else FirstCount(lines[1..], kind)
      case None => FirstCount(lines[1..], kind)
  }

  /** A comment counts nothing, also one behind blanks. */
  lemma {:induction false} CommentsCountNothing(comment: string)
    ensures ParseLine("#" + comment) == None && ParseLine(" #" + comment) == None
  {
    var line := "#" + comment;
    assert " #" + comment == " " + line;
    BlankBefore(line);
    assert line[0] == '#';
    TrimStays(line);
  }

  /** A line with blanks around its parts counts like one without. */
  lemma {:induction false} SpacedLineReads(kind: string, count: U32)
    requires GoodKind(kind) && kind != ""
    ensures ParseLine(" " + kind + " = " + Decimal(count) + " ") == Some((kind, count))
  {
    var digits := Decimal(count);
    DecimalTrimmed(count);
    ParseDecimal(count, U32_MAX);
    var line := kind + " = " + digits;
    assert " " + kind + " = " + digits + " " == " " + line + " ";
    KindAndCount(kind, digits, line);
    BlankAround(line);
    hide Trim, Decimal, ParseUnsigned, SplitOnce, GoodKind;
  }

  lemma {:induction false} BlankBefore(s: string)
    ensures Trim(" " + s) == Trim(s)
  {
    assert (" " + s)[1..] == s;
  }

  lemma {:induction false} BlankAround(line: string)
    requires Trimmed(line) && line != ""
    ensures Trim(" " + line + " ") == line
  {
    assert " " + line + " " == " " + (line + " ");
    BlankBefore(line + " ");
    assert (line + " ")[0] == line[0];
    assert TrimStart(line + " ") == line + " ";
    assert (line + " ")[..|line|] == line;
    TrimIsTrimmed(line);
  }

  lemma {:induction false} KindAndCount(kind: string, digits: string, line: string)
    requires GoodKind(kind) && kind != "" && digits != "" && Trimmed(digits)
    requires line == kind + " = " + digits
    ensures Trimmed(line) && !StartsWith(line, "#") && line != ""
    ensures SplitOnce(line, "=").Some?
    ensures Trim(SplitOnce(line, "=").value.0) == kind && Trim(SplitOnce(line, "=").value.1) == digits
  {
    var key := kind + " ";
    assert line == key + "=" + (" " + digits);
    assert line[|line| - 1] == digits[|digits| - 1] && line[0] == kind[0];
    FindAfter(key, "=", " " + digits);
    BlankBefore(digits);
    TrimIsTrimmed(digits);
    BlankBefore(kind + " ");
    BlankAround(kind);
    assert " " + (kind + " ") == " " + kind + " ";
  }

  predicate Names(line: string, kind: string) { ParseLine(line).Some? && ParseLine(line).value.0 == kind }

  /** Of the lines that count a kind, `read_counts` takes the last one. */
  lemma {:induction false} LastLineWins(lines: seq<string>, kind: string)
    ensures kind in CountsOf(lines) <==> exists i | 0 <= i < |lines| :: Names(lines[i], kind)
    ensures forall i | 0 <= i < |lines| && Names(lines[i], kind) && (forall j | i < j < |lines| :: !Names(lines[j], kind)) ::
              kind in CountsOf(lines) && CountsOf(lines)[kind] == ParseLine(lines[i]).value.1
  {
    hide ParseLine;
    if lines != [] {
      var n := |lines| - 1;
      var init := lines[..n];
      LastLineWins(init, kind);
      assert forall i | 0 <= i < n :: init[i] == lines[i];
      if !Names(lines[n], kind) && kind in CountsOf(init) {
        var i :| 0 <= i < n && Names(init[i], kind);
        assert Names(lines[i], kind);
      }
    }
  }

  /** Of the lines that count a kind, `read_scaling_count` takes the first one, and 1 when there is none. */
  lemma {:induction false} FirstLineWins(lines: seq<string>, kind: string, i: nat)
    requires i <= |lines| && forall j | 0 <= j < i :: !Names(lines[j], kind)
    requires i < |lines| ==> Names(lines[i], kind)
    ensures FirstCount(lines, kind) == if i < |lines| then ParseLine(lines[i]).value.1 else 1
  {
    hide ParseLine;
    if i > 0 {
      assert !Names(lines[0], kind);
      assert forall j | 0 <= j < i - 1 :: lines[1..][j] == lines[j + 1];
      FirstLineWins(lines[1..], kind, i - 1);
    }
  }

  function FileLines(content: Option<string>): seq<string> {
    if content.Some? then Lines(content.value) else []
  }

  /** How many workers of `kind` there should be. */
  function CountOf(counts: Counts, kind: string): U32 { if kind in counts then counts[kind] else 1 }

  // ---- Deltas ----

  /** `as u32` of a wider integer. */
  function AsU32(n: int): U32 { n % WRAP }

  /** The new count, with the truncating casts and the wrapping sum of the source. */
  function NewCount(current: U32, delta: int): U32 {
    if delta < 0 then
      if current >= AsU32(-delta) then current - AsU32(-delta) else 0
    else (current + AsU32(delta)) % WRAP
  }

  /** In range a delta is added, down to 0. */
  lemma {:induction false} DeltasAreAdded(current: U32, delta: int)
    requires -(U32_MAX as int) <= delta && current + delta <= U32_MAX
    ensures NewCount(current, delta) == if current + delta >= 0 then current + delta else 0
  {
    SmallMod(if delta < 0 then -delta else delta);
    SmallMod(if delta < 0 then 0 else current + delta);
  }

  lemma {:induction false} SmallMod(n: nat)
    requires n < WRAP
    ensures n % WRAP == n
  {
  }

  /** Kinds of the Procfile that the file does not name count 1. */
  function WithDefaults(counts: Counts, kinds: set<string>): Counts {
    map kind | kind in counts.Keys + kinds :: CountOf(counts, kind)
  }

  function Scaled(base: Counts, deltas: map<string, int>): Counts {
    map kind | kind in base.Keys + deltas.Keys ::
      if kind in deltas then NewCount(if kind in base then base[kind] else 0, deltas[kind]) else base[kind]
  }

  /** The counts a scaling makes of deltas in range: each is added to the kind's count, from 0 for a kind without one. */
  lemma {:induction false} ScaledCountsAre(counts: Counts, kinds: set<string>, deltas: map<string, int>, kind: string)
    requires kind in deltas ==>
               var count := if kind in counts then counts[kind] else if kind in kinds then 1 else 0;
               -(U32_MAX as int) <= deltas[kind] && count + deltas[kind] <= U32_MAX
    ensures var after := Scaled(WithDefaults(counts, kinds), deltas);
            var count := if kind in counts then counts[kind] else if kind in kinds then 1 else 0;
            && (kind in after <==> kind in counts || kind in kinds || kind in deltas)
            && (kind in after ==>
                  after[kind] == if kind !in deltas then count
                                 else if count + deltas[kind] >= 0 then count + deltas[kind] else 0)
  {
    if kind in deltas {
      DeltasAreAdded(if kind in counts then counts[kind] else if kind in kinds then 1 else 0, deltas[kind]);
    }
  }

  predicate ScaledAway(worker: Worker, app: string, base: Counts, counts: Counts) {
    && worker.app == app && worker.kind in counts
    && counts[worker.kind] < worker.ordinal <= CountOf(base, worker.kind)
  }

  ghost function Pruned(enabled: set<Worker>, app: string, base: Counts, counts: Counts): set<Worker> {
    set worker | worker in enabled && !ScaledAway(worker, app, base, counts)
  }

  // ---- Writing the file back ----

  predicate GoodKind(kind: string) {
    Trimmed(kind) && '=' !in kind && '\n' !in kind && !StartsWith(kind, "#")
  }

  predicate GoodKinds(kinds: set<string>) { forall kind <- kinds :: GoodKind(kind) }

  function CountLine(kind: string, count: U32): string { kind + "=" + Decimal(count) }

  function CountLines(counts: Counts, order: seq<string>): (lines: seq<string>)
    requires forall kind <- order :: kind in counts
    ensures |lines| == |order|
    ensures forall i | 0 <= i < |order| :: lines[i] == CountLine(order[i], counts[order[i]])
  {
    seq(|order|, i requires 0 <= i < |order| => assert order[i] in order; CountLine(order[i], counts[order[i]]))
  }

  ghost predicate Lists(order: seq<string>, counts: Counts) {
    && (forall i, j | 0 <= i < j < |order| :: order[i] != order[j])
    && (forall kind :: kind in order <==> kind in counts)
  }

  lemma {:induction false} LineReadsBack(kind: string, count: U32)
    requires GoodKind(kind)
    ensures ParseLine(CountLine(kind, count)) == Some((kind, count))
    ensures '\n' !in CountLine(kind, count) && !EndsWith(CountLine(kind, count), "\r")
  {
    var line, digits := CountLine(kind, count), Decimal(count);
    DecimalTrimmed(count);
    assert digits[|digits| - 1] in digits;
    assert line[|line| - 1] == digits[|digits| - 1];
    assert line[0] == if kind == "" then '=' else kind[0];
    TrimIsTrimmed(line);
    TrimIsTrimmed(kind);
    TrimIsTrimmed(digits);
    FindAfter(kind, "=", digits);
    ParseDecimal(count, U32_MAX);
  }

  lemma {:induction false} EachIsOneLine(counts: Counts, order: seq<string>)
    requires Lists(order, counts) && GoodKinds(counts.Keys)
    ensures forall line <- CountLines(counts, order) :: '\n' !in line && !EndsWith(line, "\r")
  {
    forall line | line in CountLines(counts, order)
      ensures '\n' !in line && !EndsWith(line, "\r")
    {
      var i :| 0 <= i < |order| && CountLines(counts, order)[i] == line;
      assert order[i] in order;
      LineReadsBack(order[i], counts[order[i]]);
    }
  }

  lemma {:induction false} CountsReadBack(counts: Counts, order: seq<string>, n: nat)
    requires Lists(order, counts) && GoodKinds(counts.Keys) && n <= |order|
    ensures CountsOf(CountLines(counts, order)[..n]) == map kind | kind in order[..n] :: counts[kind]
  {
    hide ParseLine, CountLine;
    if n > 0 {
      var lines := CountLines(counts, order);
      CountsReadBack(counts, order, n - 1);
      assert lines[..n][..n - 1] == lines[..n - 1];
      assert order[n - 1] in order;
      LineReadsBack(order[n - 1], counts[order[n - 1]]);
      assert order[..n] == order[..n - 1] + [order[n - 1]];
    }
  }

  /** The file written for some counts reads back as exactly those counts, whatever the order of its lines. */
  lemma {:induction false} FileReadsBack(counts: Counts, order: seq<string>)
    requires Lists(order, counts) && GoodKinds(counts.Keys)
    ensures CountsOf(Lines(Unlines(CountLines(counts, order)))) == counts
  {
    var lines := CountLines(counts, order);
    CountsReadBack(counts, order, |order|);
    assert lines[..|order|] == lines && order[..|order|] == order;
    assert (map kind | kind in order :: counts[kind]) == counts;
    hide CountsOf, CountLines, Lines, Unlines;
    EachIsOneLine(counts, order);
    LinesUnlines(lines);
  }

  lemma {:induction false} FirstIsLast(counts: Counts, order: seq<string>, kind: string)
    requires forall k <- order :: k in counts && GoodKind(k)
    requires forall i, j | 0 <= i < j < |order| :: order[i] != order[j]
    ensures FirstCount(CountLines(counts, order), kind) == if kind in order then counts[kind] else 1
  {
    if order != [] {
      var lines := CountLines(counts, order);
      assert order[0] in order;
      LineReadsBack(order[0], counts[order[0]]);
      assert lines[1..] == CountLines(counts, order[1..]);
      FirstIsLast(counts, order[1..], kind);
    }
  }

  lemma {:induction false} NothingRead()
    ensures CountsOf(FileLines(None)) == map[]
  {
  }

  // ---- A file that was cut ----

  /** The last, unfinished line of a file cut inside the line of `kind`: `written` characters of it. */
  function Cut(kind: string, count: U32, written: nat): string
    requires written <= |CountLine(kind, count)|
  {
    CountLine(kind, count)[..written]
  }

  /** What the digits written so far make, and 1 as for a missing kind while there are none. */
  function WrittenCount(kind: string, count: U32, written: nat): nat
    requires written <= |CountLine(kind, count)|
  {
    if written <= |kind| + 1 then 1 else DecimalValue(Decimal(count)[..written - |kind| - 1])
  }

  lemma {:induction false} PrefixValue(digits: string, n: nat)
    requires (forall c <- digits :: IsDigit(c)) && n <= |digits|
    ensures (forall c <- digits[..n] :: IsDigit(c)) && DecimalValue(digits[..n]) <= DecimalValue(digits)
  {
    if n < |digits| {
      var init := digits[..|digits| - 1];
      PrefixValue(init, n);
      assert digits[..n] == init[..n];
      assert digits[|digits| - 1] in digits;
    } else {
      assert digits[..n] == digits;
    }
  }

  /** A cut line counts nothing until a digit is written, and from then on the number those digits make. */
  lemma {:induction false} CutLineReads(kind: string, count: U32, written: nat)
    requires GoodKind(kind) && written <= |CountLine(kind, count)|
    ensures written <= |kind| + 1 ==> ParseLine(Cut(kind, count, written)) == None
    ensures written > |kind| + 1 ==>
              var digits := Decimal(count)[..written - |kind| - 1];
              && (forall c <- digits :: IsDigit(c)) && DecimalValue(digits) <= count
              && ParseLine(Cut(kind, count, written)) == Some((kind, DecimalValue(digits)))
    ensures '\n' !in Cut(kind, count, written)
  {
    LineReadsBack(kind, count);
    if written <= |kind| {
      CutInKind(kind, count, written);
    } else if written == |kind| + 1 {
      assert Cut(kind, count, written) == kind + "=" + "";
      ShortLineReads(kind, "");
    } else {
      var n := written - |kind| - 1;
      var digits := Decimal(count)[..n];
      ValueOfDecimal(count);
      PrefixValue(Decimal(count), n);
      assert Cut(kind, count, written) == kind + "=" + digits;
      ShortLineReads(kind, digits);
    }
  }

  lemma {:induction false} CutInKind(kind: string, count: U32, written: nat)
    requires GoodKind(kind) && written <= |kind|
    ensures written <= |CountLine(kind, count)| && ParseLine(Cut(kind, count, written)) == None
  {
    var part := Cut(kind, count, written);
    assert part == kind[..written];
    TrimIsPart(part);
    FindNothing(Trim(part), "=");
  }

  lemma {:induction false} ShortLineReads(kind: string, digits: string)
    requires GoodKind(kind) && (forall c <- digits :: IsDigit(c)) && DecimalValue(digits) <= U32_MAX
    ensures ParseLine(kind + "=" + digits) == if digits == "" then None else Some((kind, DecimalValue(digits)))
  {
    var line := kind + "=" + digits;
    assert Trim(digits) == digits && ParseUnsigned(digits, U32_MAX) ==
           if digits == "" then None else Some(DecimalValue(digits)) by {
      assert digits != "" ==> digits[0] in digits && digits[|digits| - 1] in digits;
      TrimIsTrimmed(digits);
    }
    assert Trim(line) == line && !StartsWith(line, "#") by {
      assert digits != "" ==> digits[|digits| - 1] in digits;
      assert line[|line| - 1] == if digits == "" then '=' else digits[|digits| - 1];
      assert line[0] == if kind == "" then '=' else kind[0];
      TrimIsTrimmed(line);
    }
    TrimIsTrimmed(kind);
    FindAfter(kind, "=", digits);
    hide Trim, ParseUnsigned, SplitOnce, DecimalValue;
  }

  /** A beginning of a file is some of its lines and a beginning of the next. */
  lemma {:induction false} FileCut(lines: seq<string>, text: string) returns (n: nat, part: string)
    requires text <= Unlines(lines)
    ensures n <= |lines| && text == Unlines(lines[..n]) + part
    ensures if n < |lines| then part <= lines[n] else part == ""
  {
    if lines == [] || |text| <= |lines[0]| {
      n, part := 0, text;
      assert lines != [] ==> text == Unlines(lines)[..|text|] == lines[0][..|text|];
    } else {
      var first := lines[0] + "\n";
      assert Unlines(lines) == first + Unlines(lines[1..]);
      assert text[..|first|] == first;
      n, part := FileCut(lines[1..], text[|first|..]);
      assert lines[..n + 1] == [lines[0]] + lines[1..][..n];
      assert lines[..n + 1][1..] == lines[1..][..n];
      n := n + 1;
    }
  }

  /** What a file counts that was cut in the line of its `n`-th kind, or after all of them. */
  ghost function CutCounts(counts: Counts, order: seq<string>, n: nat, part: string): Counts
    requires n <= |order| && forall kind <- order :: kind in counts
  {
    var whole: Counts := map kind | kind in order[..n] :: counts[kind];
    match ParseLine(part)
    case Some((kind, count)) => whole[kind := count]
    case None => whole
  }

  /** A cut file reads as its whole lines and what the cut line counts. */
  lemma {:induction false} CutFileReads(counts: Counts, order: seq<string>, text: string) returns (n: nat, part: string)
    requires Lists(order, counts) && GoodKinds(counts.Keys) && text <= Unlines(CountLines(counts, order))
    ensures n <= |order| && CountsOf(Lines(text)) == CutCounts(counts, order, n, part)
    ensures if n < |order| then part <= CountLine(order[n], counts[order[n]]) else part == ""
  {
    var lines := CountLines(counts, order);
    n, part := FileCut(lines, text);
    EachIsOneLine(counts, order);
    CountsReadBack(counts, order, n);
    var whole := lines[..n];
    assert '\n' !in part by {
      assert n < |order| ==> lines[n] in lines;
    }
    hide CountLines, ParseLine, Lists, GoodKinds, Unlines, Lines;
    UnlinesIsClosed(whole);
    LinesAppend(Unlines(whole), part);
    LinesUnlines(whole);
    LastCount(whole, part);
  }

  lemma {:induction false} UnlinesIsClosed(lines: seq<string>)
    ensures Unlines(lines) == "" || Unlines(lines)[|Unlines(lines)| - 1] == '\n'
  {
    if lines != [] {
      UnlinesIsClosed(lines[1..]);
    }
  }

  lemma {:induction false} LastCount(lines: seq<string>, part: string)
    requires '\n' !in part
    ensures CountsOf(lines + Lines(part)) ==
            match ParseLine(part)
            case Some((kind, count)) => CountsOf(lines)[kind := count]
            case None => CountsOf(lines)
  {
    if part == "" {
      assert lines + Lines(part) == lines;
      assert Trim(part) == "";
    } else {
      FindNothing(part, "\n");
      assert Lines(part) == [part];
      hide ParseLine;
      assert (lines + [part])[..|lines|] == lines;
    }
  }

  lemma {:induction false} KindsReadAreGood(lines: seq<string>)
    requires forall line <- lines :: '\n' !in line
    ensures GoodKinds(CountsOf(lines).Keys)
  {
    if lines != [] {
      var last := lines[|lines| - 1];
      assert last in lines;
      KindsReadAreGood(lines[..|lines| - 1]);
      if ParseLine(last).Some? {
        KindReadIsGood(last);
      }
    }
  }

  lemma {:induction false} KindReadIsGood(raw: string)
    requires ParseLine(raw).Some? && '\n' !in raw
    ensures GoodKind(ParseLine(raw).value.0)
  {
    var line := Trim(raw);
    TrimIsPart(raw);
    var i := Find(line, "=").value;
    var key := line[..i];
    FirstHit(line, '=');
    TrimIsPart(key);
    TrimIsTrimmed(key);
    TrimIsTrimmed(raw);
    assert key != "" ==> key[0] == line[0];
    if key != "" {
      TrimStays(key);
    }
  }

  // ---- Contiguous workers ----

  /** The enabled workers of `app` are numbered within 1 to their kind's count. */
  ghost predicate WithinCounts(enabled: set<Worker>, app: string, counts: Counts) {
    forall worker <- enabled :: worker.app == app ==> 1 <= worker.ordinal <= CountOf(counts, worker.kind)
  }

  /** Every number below that of an enabled worker of `app` is enabled too. */
  ghost predicate NoGaps(enabled: set<Worker>, app: string) {
    forall worker, lower: nat | worker in enabled && worker.app == app && 1 <= lower < worker.ordinal ::
      Worker(app, worker.kind, lower) in enabled
  }

  /** The enabled workers of each kind of `app` are 1 to some N, and N is at most the kind's count. */
  ghost predicate Contiguous(enabled: set<Worker>, app: string, counts: Counts) {
    WithinCounts(enabled, app, counts) && NoGaps(enabled, app)
  }

  lemma {:induction false} DefaultsCountTheSame(counts: Counts, kinds: set<string>, deltas: map<string, int>, kind: string)
    ensures CountOf(WithDefaults(counts, kinds), kind) == CountOf(counts, kind)
    ensures kind !in Scaled(WithDefaults(counts, kinds), deltas) ==> kind !in WithDefaults(counts, kinds)
  {
  }

  /**
   A successful scaling keeps the workers within their counts and without gaps,
   whatever the deltas, and drops none within the new counts and none of another app.
   */
  lemma {:induction false} ScalingStaysContiguous(
      enabled: set<Worker>, app: string, counts: Counts, kinds: set<string>, deltas: map<string, int>)
    requires WithinCounts(enabled, app, counts)
    ensures var base := WithDefaults(counts, kinds);
            var after := Scaled(base, deltas);
            && WithinCounts(Pruned(enabled, app, base, after), app, after)
            && (NoGaps(enabled, app) ==> NoGaps(Pruned(enabled, app, base, after), app))
            && forall worker <- enabled ::
                 worker.app != app || worker.ordinal <= CountOf(after, worker.kind) ==>
                   worker in Pruned(enabled, app, base, after)
  {
    var base := WithDefaults(counts, kinds);
    var after := Scaled(base, deltas);
    forall worker | worker in enabled
      ensures CountOf(base, worker.kind) == CountOf(counts, worker.kind)
      ensures worker.kind !in after ==> worker.kind !in base
    {
      DefaultsCountTheSame(counts, kinds, deltas, worker.kind);
    }
    hide WithDefaults, Scaled;
    NoGapsAfterIff(enabled, app, base, after);
  }

  /** Some worker of `app` is numbered above the old count of a kind that is scaled down. */
  ghost predicate StrayAbove(enabled: set<Worker>, app: string, base: Counts, after: Counts) {
    exists worker <- enabled ::
      && worker.app == app && worker.kind in after
      && after[worker.kind] < CountOf(base, worker.kind) < worker.ordinal
  }

  /** Exactly when a successful scaling opens a gap: a kind is scaled down while a worker is above its old count. */
  lemma {:induction false} NoGapsAfterIff(enabled: set<Worker>, app: string, base: Counts, after: Counts)
    ensures NoGaps(enabled, app) ==>
              (NoGaps(Pruned(enabled, app, base, after), app) <==> !StrayAbove(enabled, app, base, after))
  {
    var pruned := Pruned(enabled, app, base, after);
    if NoGaps(enabled, app) && StrayAbove(enabled, app, base, after) {
      var worker :| worker in enabled && worker.app == app && worker.kind in after
                 && after[worker.kind] < CountOf(base, worker.kind) < worker.ordinal;
      var lower: nat := CountOf(base, worker.kind);
      assert worker in pruned && 1 <= lower < worker.ordinal;
      assert Worker(app, worker.kind, lower) !in pruned;
    } else if NoGaps(enabled, app) {
      forall worker, lower: nat | worker in pruned && worker.app == app && 1 <= lower < worker.ordinal
        ensures Worker(app, worker.kind, lower) in pruned
      {
        assert Worker(app, worker.kind, lower) in enabled;
        assert !ScaledAway(worker, app, base, after);
      }
    }
  }

  /** All enabled workers of a kind are numbered within 1 to `limit`. */
  ghost predicate Within(enabled: set<Worker>, app: string, kind: string, limit: nat) {
    forall worker <- enabled :: worker.app == app && worker.kind == kind ==> 1 <= worker.ordinal <= limit
  }

  /**
   Exactly when a kind comes out of a scaling numbered within its new count: it
   was numbered within the larger of its old and new counts. Only numbers up to
   the old count are ever pruned, so a link a failed prune left above it stays.
   */
  lemma {:induction false} KindIsWithinAfterIff(
      enabled: set<Worker>, app: string, kind: string, base: Counts, after: Counts)
    requires kind in after
    ensures var larger := if after[kind] < CountOf(base, kind) then CountOf(base, kind) else after[kind];
            Within(Pruned(enabled, app, base, after), app, kind, after[kind]) <==> Within(enabled, app, kind, larger)
  {
    var pruned := Pruned(enabled, app, base, after);
    var larger := if after[kind] < CountOf(base, kind) then CountOf(base, kind) else after[kind];
    if Within(pruned, app, kind, after[kind]) {
      forall worker | worker in enabled && worker.app == app && worker.kind == kind
        ensures 1 <= worker.ordinal <= larger
      {
        if !ScaledAway(worker, app, base, after) {
          assert worker in pruned;
        }
      }
    }
  }

  // ---- A prune that stops ----

  /**
   What a prune that could not remove worker `stop` of `kind` leaves: the kinds
   in `done` are pruned, of `kind` the numbers below `stop`, of the others nothing.
   */
  ghost predicate StoppedPrune(
    now: set<Worker>, before: set<Worker>, app: string, base: Counts, counts: Counts,
    done: set<string>, kind: string, stop: nat)
  {
    && kind in counts && kind !in done && done <= counts.Keys
    && counts[kind] < stop <= CountOf(base, kind) && Worker(app, kind, stop) in before
    && forall worker: Worker ::
         worker in now <==>
         (worker in before && !(ScaledAway(worker, app, base, counts) &&
                                (worker.kind in done || (worker.kind == kind && worker.ordinal < stop))))
  }

  /**
   Exactly when a prune that stopped leaves a hole: it had removed a worker of the
   kind it stopped in, because the numbers are removed from the lowest up.
   */
  lemma {:induction false} StoppedPruneLeavesAHoleIff(
      now: set<Worker>, before: set<Worker>, app: string, base: Counts, counts: Counts,
      done: set<string>, kind: string, stop: nat)
    requires StoppedPrune(now, before, app, base, counts, done, kind, stop)
    requires Contiguous(before, app, base)
    ensures !NoGaps(now, app) <==> counts[kind] + 1 < stop
  {
    var top, lower: nat := Worker(app, kind, stop), counts[kind] + 1;
    assert top in now;
    if lower < stop {
      assert Worker(app, kind, lower) in before;
      assert ScaledAway(Worker(app, kind, lower), app, base, counts);
      assert Worker(app, kind, lower) !in now;
    } else {
      forall worker, below: nat | worker in now && worker.app == app && 1 <= below < worker.ordinal
        ensures Worker(app, worker.kind, below) in now
      {
        assert Worker(app, worker.kind, below) in before;
        assert worker in before;
      }
    }
  }

  /** The workers 1 to `n` of a kind. */
  ghost function FirstWorkers(app: string, kind: string, n: nat): set<Worker> {
    set ordinal: nat | 1 <= ordinal <= n :: Worker(app, kind, ordinal)
  }

  lemma {:induction false} FirstWorkersAre(app: string, kind: string, n: nat, worker: Worker)
    ensures worker in FirstWorkers(app, kind, n) <==>
            worker.app == app && worker.kind == kind && 1 <= worker.ordinal <= n
  {
    if worker.app == app && worker.kind == kind && 1 <= worker.ordinal <= n {
      assert worker == Worker(app, kind, worker.ordinal);
    }
  }

  lemma {:induction false} FirstWorkersAreContiguous(app: string, kind: string, n: U32)
    ensures Contiguous(FirstWorkers(app, kind, n), app, map[kind := n])
  {
    var workers := FirstWorkers(app, kind, n);
    forall worker | worker in workers
      ensures worker.kind == kind && 1 <= worker.ordinal <= n
    {
      FirstWorkersAre(app, kind, n, worker);
    }
    forall worker, lower: nat | worker in workers && worker.app == app && 1 <= lower < worker.ordinal
      ensures Worker(app, worker.kind, lower) in workers
    {
      FirstWorkersAre(app, kind, n, Worker(app, worker.kind, lower));
    }
  }

  /** Scaling four workers down to one and failing at the third leaves the first, the third and the fourth. */
  lemma {:induction false} AStoppedPruneCanLeaveAHole(app: string, kind: string)
    ensures var before, now := FirstWorkers(app, kind, 4), FirstWorkers(app, kind, 4) - {Worker(app, kind, 2)};
            && Contiguous(before, app, map[kind := 4])
            && StoppedPrune(now, before, app, map[kind := 4], map[kind := 1], {}, kind, 3)
            && !NoGaps(now, app)
  {
    var before, now := FirstWorkers(app, kind, 4), FirstWorkers(app, kind, 4) - {Worker(app, kind, 2)};
    FirstWorkersAreContiguous(app, kind, 4);
    forall worker: Worker
      ensures worker in before <==> worker.app == app && worker.kind == kind && 1 <= worker.ordinal <= 4
    {
      FirstWorkersAre(app, kind, 4, worker);
    }
    hide FirstWorkers, Contiguous;
    assert Worker(app, kind, 3) in now && Worker(app, kind, 2) !in now;
  }

  /**
   A prune that stopped is not made up for: after a scale-down from 2 workers to 1
   that could not remove the second, scaling again without a delta keeps it.
   */
  lemma {:induction false} AFailedPruneIsNotRepeated(app: string, kind: string)
    ensures var before, counts: Counts := FirstWorkers(app, kind, 2), map[kind := 2];
            var after := Scaled(WithDefaults(counts, {}), map[kind := -1]);
            var again := Scaled(WithDefaults(after, {}), map[]);
            && Contiguous(before, app, counts)
            && StoppedPrune(before, before, app, WithDefaults(counts, {}), after, {}, kind, 2)
            && !WithinCounts(Pruned(before, app, WithDefaults(after, {}), again), app, again)
  {
    var before, counts: Counts := FirstWorkers(app, kind, 2), map[kind := 2];
    FirstWorkersAreContiguous(app, kind, 2);
    var second := Worker(app, kind, 2);
    FirstWorkersAre(app, kind, 2, second);
    DeltasAreAdded(2, -1);
    var after := Scaled(WithDefaults(counts, {}), map[kind := -1]);
    var again := Scaled(WithDefaults(after, {}), map[]);
    assert WithDefaults(counts, {}) == counts && after == map[kind := 1];
    assert WithDefaults(after, {}) == after && again == after;
    hide FirstWorkers, Contiguous, WithDefaults, Scaled;
    assert second in Pruned(before, app, after, again);
    forall worker: Worker | worker in before
      ensures !(ScaledAway(worker, app, counts, after) && worker.kind == kind && worker.ordinal < 2)
    {
    }
  }

  /** A file that cannot be inspected is forgotten: two workers and a count of 2 come out with a count of 1. */
  lemma {:induction false} AnUnseenFileIsForgotten(app: string, kind: string)
    ensures var workers := FirstWorkers(app, kind, 2);
            var base := WithDefaults(map[], {kind});
            var after := Scaled(base, map[]);
            && Contiguous(workers, app, map[kind := 2])
            && after == map[kind := 1]
            && !WithinCounts(Pruned(workers, app, base, after), app, after)
  {
    var workers, second := FirstWorkers(app, kind, 2), Worker(app, kind, 2);
    FirstWorkersAreContiguous(app, kind, 2);
    FirstWorkersAre(app, kind, 2, second);
    var base := WithDefaults(map[], {kind});
    var after := Scaled(base, map[]);
    assert base == map[kind := 1] && after == map[kind := 1];
    hide FirstWorkers, Contiguous;
    assert second in Pruned(workers, app, base, after);
  }

  /**
   Exactly when workers are still within what a cut file counts: those of a kind
   whose line is whole within its count, those of the kind that was cut within the
   number its digits make so far, and of any other kind there is only the first.
   */
  lemma {:induction false} WithinCutFileIff(
      enabled: set<Worker>, app: string, counts: Counts, order: seq<string>, n: nat, written: nat)
    requires Lists(order, counts) && GoodKinds(counts.Keys) && n < |order|
    requires written <= |CountLine(order[n], counts[order[n]])|
    ensures var cut := order[n];
            var part := Cut(cut, counts[cut], written);
            WithinCounts(enabled, app, CutCounts(counts, order, n, part)) <==>
            forall worker <- enabled :: worker.app == app ==>
              && worker.ordinal >= 1
              && (worker.kind in order[..n] ==> worker.ordinal <= counts[worker.kind])
              && (worker.kind == cut ==> worker.ordinal <= WrittenCount(cut, counts[cut], written))
              && (worker.kind !in order[..n] && worker.kind != cut ==> worker.ordinal <= 1)
  {
    var cut := order[n];
    assert cut in order && cut !in order[..n];
    CutLineReads(cut, counts[cut], written);
    hide ParseLine, Cut;
    var part := Cut(cut, counts[cut], written);
    var after := CutCounts(counts, order, n, part);
    forall kind
      ensures CountOf(after, kind) ==
              if kind in order[..n] then counts[kind]
              else if kind == cut then WrittenCount(cut, counts[cut], written)
              else 1
    {
    }
  }

  /** An empty file, cut before its first character, is one that two workers are not within. */
  lemma {:induction false} AnEmptyFileIsTooShort(app: string, kind: string)
    ensures CountsOf(Lines("")) == map[]
    ensures !WithinCounts(FirstWorkers(app, kind, 2), app, map[])
  {
    FirstWorkersAre(app, kind, 2, Worker(app, kind, 2));
  }

  // ---- Runs over many apps ----

  /** What every app's file counts, and the enabled workers of them all. */
  datatype Fleet = Fleet(counts: map<string, Counts>, enabled: set<Worker>)

  /** A scaling, or the start of a worker. */
  datatype Step =
    | Scale(app: string, kinds: set<string>, deltas: map<string, int>)
    | Enable(app: string, kind: string, ordinal: nat)

  function AppCounts(fleet: Fleet, app: string): Counts {
    if app in fleet.counts then fleet.counts[app] else map[]
  }

  /** The next worker of its kind, within the count. */
  ghost predicate IsNext(fleet: Fleet, worker: Worker) {
    && 1 <= worker.ordinal <= CountOf(AppCounts(fleet, worker.app), worker.kind)
    && forall lower: nat | 1 <= lower < worker.ordinal :: Worker(worker.app, worker.kind, lower) in fleet.enabled
  }

  ghost function Next(fleet: Fleet, step: Step): Fleet {
    match step
    case Scale(app, kinds, deltas) =>
      var base := WithDefaults(AppCounts(fleet, app), kinds);
      var after := Scaled(base, deltas);
      Fleet(fleet.counts[app := after], Pruned(fleet.enabled, app, base, after))
    case Enable(app, kind, ordinal) =>
      var worker := Worker(app, kind, ordinal);
      if IsNext(fleet, worker) then fleet.(enabled := fleet.enabled + {worker}) else fleet
  }

  ghost function After(fleet: Fleet, steps: seq<Step>): Fleet {
    if steps == [] then fleet
    else Next(After(fleet, steps[..|steps| - 1]), steps[|steps| - 1])
  }

  ghost predicate AllContiguous(fleet: Fleet) {
    forall app: string :: Contiguous(fleet.enabled, app, AppCounts(fleet, app))
  }

  lemma {:induction false} StepStaysContiguous(fleet: Fleet, step: Step, app: string)
    requires Contiguous(fleet.enabled, app, AppCounts(fleet, app))
    ensures Contiguous(Next(fleet, step).enabled, app, AppCounts(Next(fleet, step), app))
  {
    if app == step.app && step.Scale? {
      ScalingStaysContiguous(fleet.enabled, app, AppCounts(fleet, app), step.kinds, step.deltas);
    }
  }

  /**
   Over every run of successful scalings and starts of any apps, the workers of
   every kind are 1 to some N, within its count.
   */
  lemma {:induction false} EveryRunStaysContiguous(fleet: Fleet, steps: seq<Step>)
    requires AllContiguous(fleet)
    ensures AllContiguous(After(fleet, steps))
  {
    if steps != [] {
      var before, step := After(fleet, steps[..|steps| - 1]), steps[|steps| - 1];
      EveryRunStaysContiguous(fleet, steps[..|steps| - 1]);
      forall app: string
        ensures Contiguous(Next(before, step).enabled, app, AppCounts(Next(before, step), app))
      {
        assert Contiguous(before.enabled, app, AppCounts(before, app));
        StepStaysContiguous(before, step, app);
      }
    }
  }

  /** A run that never scales an app leaves its counts and its workers alone. */
  lemma {:induction false} OtherAppsAreUntouched(fleet: Fleet, steps: seq<Step>, app: string)
    requires forall step <- steps :: step.app != app
    ensures AppCounts(After(fleet, steps), app) == AppCounts(fleet, app)
    ensures forall worker: Worker :: worker.app == app ==>
              (worker in After(fleet, steps).enabled <==> worker in fleet.enabled)
  {
    if steps != [] {
      assert steps[|steps| - 1] in steps;
      OtherAppsAreUntouched(fleet, steps[..|steps| - 1], app);
    }
  }

  // ---- The operations ----

  class App {
    const name: string
    /** The SCALING file, if there is one. */
    var scaling: Option<string>
    /** The enabled workers of every app. */
    var enabled: set<Worker>
    var faults: nat
    /** How many links were there but could not be inspected, which the code takes for missing ones. */
    var unseen: nat

    constructor (name: string, scaling: Option<string>, enabled: set<Worker>)
      ensures this.name == name && this.scaling == scaling && this.enabled == enabled && faults == 0 && unseen == 0
    {
      this.name, this.scaling, this.enabled, faults, unseen := name, scaling, enabled, 0, 0;
    }

    ghost function Counts(): Counts
      reads this
    {
      CountsOf(FileLines(scaling))
    }

    method ReadCounts() returns (counts: Counts)
      ensures counts == Counts()
    {
      hide ParseLine;
      counts := map[];
      var lines := FileLines(scaling);
      for i := 0 to |lines|
        invariant counts == CountsOf(lines[..i])
      {
        assert lines[..i + 1][..i] == lines[..i];
        var entry := ParseLine(lines[i]);
        if entry.Some? {
          counts := counts[entry.value.0 := entry.value.1];
        }
      }
      assert lines[..|lines|] == lines;
    }

    /**
     Unlinks the workers `from` to `to` of `kind` from the lowest up, stopping at
     the first failure: exactly those below `stop` are gone, but for links that
     could not be inspected.
     */
    method RemoveScaledDown(kind: string, from: nat, to: nat) returns (ok: bool, ghost stop: nat)
      requires from <= to
      modifies this`enabled, this`faults, this`unseen
      ensures from <= stop <= to + 1 && (ok <==> stop == to + 1)
      ensures !ok ==> Worker(name, kind, stop) in old(enabled)
      ensures enabled <= old(enabled) && unseen >= old(unseen)
      ensures forall worker <- old(enabled) ::
                !(worker.app == name && worker.kind == kind && from <= worker.ordinal < stop) ==> worker in enabled
      ensures unseen == old(unseen) ==> forall worker <- enabled ::
                !(worker.app == name && worker.kind == kind && from <= worker.ordinal < stop)
      ensures faults >= old(faults) && (ok <==> faults == old(faults))
    {
      for ordinal := from to to + 1
        invariant faults == old(faults) && enabled <= old(enabled) && unseen >= old(unseen)
        invariant forall worker <- old(enabled) ::
                    !(worker.app == name && worker.kind == kind && from <= worker.ordinal < ordinal) ==>
                      worker in enabled
        invariant unseen == old(unseen) ==> forall worker <- enabled ::
                    !(worker.app == name && worker.kind == kind && from <= worker.ordinal < ordinal)
      {
        var worker := Worker(name, kind, ordinal);
        if worker in enabled {
          var inspected: bool := *;
          if !inspected {
            unseen := unseen + 1;
            continue;
          }
          ok := *;
          if !ok {
            faults := faults + 1;
            return false, ordinal;
          }
          enabled := enabled - {worker};
        }
      }
      return true, to + 1;
    }

    /** Removes the workers that were scaled away, kind by kind. */
    method Prune(base: Counts, counts: Counts) returns (ok: bool)
      modifies this`enabled, this`faults, this`unseen
      ensures Pruned(old(enabled), name, base, counts) <= enabled <= old(enabled) && unseen >= old(unseen)
      ensures ok && unseen == old(unseen) ==> enabled == Pruned(old(enabled), name, base, counts)
      ensures !ok && unseen == old(unseen) ==> exists done, kind, stop: nat ::
                StoppedPrune(enabled, old(enabled), name, base, counts, done, kind, stop)
      ensures faults >= old(faults) && (ok <==> faults == old(faults))
    {
      var left := counts.Keys;
      while left != {}
        invariant left <= counts.Keys && faults == old(faults) && unseen >= old(unseen)
        invariant enabled <= old(enabled)
        invariant forall worker <- old(enabled) ::
                    !(ScaledAway(worker, name, base, counts) && worker.kind !in left) ==> worker in enabled
        invariant unseen == old(unseen) ==> forall worker <- enabled ::
                    !(ScaledAway(worker, name, base, counts) && worker.kind !in left)
        decreases left
      {
        var kind :| kind in left;
        ghost var done := counts.Keys - left;
        left := left - {kind};
        var count := CountOf(base, kind);
        if counts[kind] < count {
          ghost var stop;
          ok, stop := RemoveScaledDown(kind, counts[kind] + 1, count);
          if !ok {
            assert unseen == old(unseen) ==>
                     StoppedPrune(enabled, old(enabled), name, base, counts, done, kind, stop);
            return;
          }
        }
      }
      return true;
    }

    /** The SCALING text for `counts`, one line for each kind. */
    method Text(counts: Counts) returns (text: string, ghost order: seq<string>)
      ensures Lists(order, counts) && text == Unlines(CountLines(counts, order))
    {
      text, order := "", [];
      var left := counts.Keys;
      while left != {}
        invariant left <= counts.Keys
        invariant forall i, j | 0 <= i < j < |order| :: order[i] != order[j]
        invariant forall kind :: kind in order <==> kind in counts && kind !in left
        invariant text == Unlines(CountLines(counts, order))
        decreases left
      {
        var kind :| kind in left;
        left := left - {kind};
        var line := CountLine(kind, counts[kind]);
        ghost var longer := order + [kind];
        assert CountLines(counts, longer) == CountLines(counts, order) + [line];
        UnlinesAppend(CountLines(counts, order), [line]);
        assert Unlines([line]) == line + "\n";
        text, order := text + (line + "\n"), longer;
      }
    }

    /**
     `apply_scaling_deltas`: reads the counts, applies the deltas, writes the
     file and unlinks what was scaled away. A success returns the counts the
     file now reads as and prunes exactly the workers above them. A file that
     cannot be inspected, `!seen`, counts as missing.
     */
    method ApplyDeltas(deltas: map<string, int>, kinds: set<string>) returns (r: Option<Counts>, ghost seen: bool)
      requires GoodKinds(deltas.Keys) && GoodKinds(kinds)
      modifies this
      ensures r.Some? ==>
                var base := WithDefaults(if seen then old(Counts()) else map[], kinds);
                && r.value == Scaled(base, deltas)
                && Counts() == r.value
                && (forall kind :: FirstCount(FileLines(scaling), kind) == CountOf(r.value, kind))
                && Pruned(old(enabled), name, base, r.value) <= enabled <= old(enabled)
                && (unseen == old(unseen) ==> enabled == Pruned(old(enabled), name, base, r.value))
      ensures r.None? && unseen == old(unseen) ==>
                var base := WithDefaults(if seen then old(Counts()) else map[], kinds);
                var counts := Scaled(base, deltas);
                || enabled == old(enabled)
                || (&& Counts() == counts
                    && exists done, kind, stop: nat ::
                         StoppedPrune(enabled, old(enabled), name, base, counts, done, kind, stop))
      ensures r.None? ==>
                var counts := Scaled(WithDefaults(if seen then old(Counts()) else map[], kinds), deltas);
                || scaling == old(scaling)
                || (scaling.Some? && exists order | Lists(order, counts) ::
                      scaling.value <= Unlines(CountLines(counts, order)))
      ensures enabled <= old(enabled) && unseen >= old(unseen)
      ensures faults >= old(faults) && (r.Some? <==> faults == old(faults))
    {
      hide WithDefaults, Scaled, Pruned, StoppedPrune, CountsOf, FirstCount, Lines, Unlines, CountLines;
      var inspected: bool := *;
      seen := inspected;
      var ok: bool := *;
      if !ok {
        faults := faults + 1;
        return None, seen;
      }
      var read: Counts := map[];
      if inspected {
        read := ReadCounts();
      } else {
        NothingRead();
      }
      var base := WithDefaults(read, kinds);
      var counts := Scaled(base, deltas);
      var text, order := Text(counts);
      KindsAreGood(if inspected then scaling else None, kinds, deltas);
      ok := *;
      if !ok {
        faults := faults + 1;
        return None, seen;
      }
      ok := *;
      var written: nat :| written <= |text|;
      scaling := Some(if ok then text else text[..written]);
      if !ok {
        faults := faults + 1;
        return None, seen;
      }
      FileReadsBack(counts, order);
      forall kind
        ensures FirstCount(Lines(text), kind) == CountOf(counts, kind)
      {
        FirstReadsBack(counts, order, kind);
      }
      ok := Prune(base, counts);
      return (if ok then Some(counts) else None), seen;
    }

    /**
     `delete_worker`: only the highest worker, as the file's first line for the
     kind counts it, may be deleted; anything else is refused and changes nothing.
     A file that cannot be inspected counts as missing here too.
     */
    method DeleteWorker(kind: string, ordinal: nat) returns (ok: bool, ghost first: bool, ghost seen: bool)
      modifies this
      ensures !IsKind(kind) || ordinal != FirstCount(if first then old(FileLines(scaling)) else [], kind) ==>
                !ok && scaling == old(scaling) && enabled == old(enabled)
      ensures ok ==>
                var base := WithDefaults(if seen then old(Counts()) else map[], {kind});
                && Counts() == Scaled(base, map[kind := -1])
                && Pruned(old(enabled), name, base, Counts()) <= enabled <= old(enabled)
                && (unseen == old(unseen) ==> enabled == Pruned(old(enabled), name, base, Counts()))
      ensures IsKind(kind) && ordinal == FirstCount(if first then old(FileLines(scaling)) else [], kind) ==>
                (ok <==> faults == old(faults))
      ensures faults >= old(faults)
    {
      var inspected: bool := *;
      first, seen := inspected, true;
      if !IsKind(kind) {
        return false, first, seen;
      }
      var readable: bool := *;
      if !readable {
        faults := faults + 1;
        return false, first, seen;
      }
      if ordinal != FirstCount(if inspected then FileLines(scaling) else [], kind) {
        return false, first, seen;
      }
      IsKindIsGood(kind);
      var counts;
      counts, seen := ApplyDeltas(map[kind := -1], {kind});
      return counts.Some?, first, seen;
    }
  }

  /** A Procfile process type. */
  predicate IsKind(kind: string) {
    kind != "" && forall c <- kind :: IsAlnum(c) || c == '_' || c == '-'
  }

  lemma {:induction false} IsKindIsGood(kind: string)
    requires IsKind(kind)
    ensures GoodKind(kind)
  {
    assert kind[0] in kind && kind[|kind| - 1] in kind;
  }

  lemma {:induction false} KindsAreGood(scaling: Option<string>, kinds: set<string>, deltas: map<string, int>)
    requires GoodKinds(deltas.Keys) && GoodKinds(kinds)
    ensures GoodKinds(Scaled(WithDefaults(CountsOf(FileLines(scaling)), kinds), deltas).Keys)
  {
    if scaling.Some? {
      LinesHaveNoNewline(scaling.value);
      KindsReadAreGood(Lines(scaling.value));
    }
  }

  lemma {:induction false} FirstReadsBack(counts: Counts, order: seq<string>, kind: string)
    requires Lists(order, counts) && GoodKinds(counts.Keys)
    ensures FirstCount(Lines(Unlines(CountLines(counts, order))), kind) == CountOf(counts, kind)
  {
    EachIsOneLine(counts, order);
    hide CountsOf, CountLines, Lines, Unlines;
    LinesUnlines(CountLines(counts, order));
    FirstIsLast(counts, order, kind);
  }

  /**
   A successful delete removes the worker that was asked for, and it alone, if
   and only if the file's first and last lines for its kind agree, or neither of
   the workers they count is enabled and there is nothing to remove.
   */
  lemma {:induction false} DeleteRemovesTheOneAskedForIff(
      enabled: set<Worker>, app: string, lines: seq<string>, kind: string)
    requires WithinCounts(enabled, app, CountsOf(lines))
    ensures var base := WithDefaults(CountsOf(lines), {kind});
            var first, last := FirstCount(lines, kind), CountOf(CountsOf(lines), kind);
            var asked := Worker(app, kind, first);
            Pruned(enabled, app, base, Scaled(base, map[kind := -1])) == enabled - {asked} <==>
            first == last || (asked !in enabled && Worker(app, kind, last) !in enabled)
  {
    var base := WithDefaults(CountsOf(lines), {kind});
    var after := Scaled(base, map[kind := -1]);
    var last := CountOf(CountsOf(lines), kind);
    assert base[kind] == last && kind in after;
    DeltasAreAdded(last, -1);
    assert after[kind] == if last == 0 then 0 else last - 1;
    forall worker | worker in enabled
      ensures ScaledAway(worker, app, base, after) <==> worker == Worker(app, kind, last)
    {
      if worker.kind != kind {
        assert worker.kind in after ==> after[worker.kind] == CountOf(base, worker.kind);
      }
    }
    assert Pruned(enabled, app, base, after) == enabled - {Worker(app, kind, last)};
  }

  lemma {:induction false} TwoLines(kind: string, a: string, m: U32, b: string, n: U32)
    requires ParseLine(a) == Some((kind, m)) && ParseLine(b) == Some((kind, n))
    ensures CountsOf([a, b]) == map[kind := n] && FirstCount([a, b], kind) == m
  {
    hide ParseLine;
    assert CountsOf([a]) == map[kind := m] by {
      assert [a][..0] == [];
    }
    assert [a, b][..1] == [a];
  }

  lemma {:induction false} PrunesTheTop(app: string, kind: string, high: U32)
    requires high >= 1
    ensures var base := WithDefaults(map[kind := high], {kind});
            Pruned(FirstWorkers(app, kind, high), app, base, Scaled(base, map[kind := -1])) ==
            FirstWorkers(app, kind, high - 1)
  {
    var base := WithDefaults(map[kind := high], {kind});
    DeltasAreAdded(high, -1);
    assert base == map[kind := high];
    assert Scaled(base, map[kind := -1]) == map[kind := high - 1];
    var before, after := FirstWorkers(app, kind, high), FirstWorkers(app, kind, high - 1);
    var counts: Counts := map[kind := high - 1];
    forall worker: Worker
      ensures worker in Pruned(before, app, base, counts) <==> worker in after
    {
      FirstWorkersAre(app, kind, high, worker);
      FirstWorkersAre(app, kind, high - 1, worker);
    }
  }

  /**
   They need not agree: with one line counting `low` and a later one `high`, and
   `high` workers, a delete of worker `low` passes the check and removes worker `high`.
   */
  lemma {:induction false} DeleteCanRemoveAnother(app: string, kind: string, low: U32, high: U32)
    requires IsKind(kind) && 1 <= low < high
    ensures var lines := [CountLine(kind, low), CountLine(kind, high)];
            var workers := FirstWorkers(app, kind, high);
            var base := WithDefaults(CountsOf(lines), {kind});
            && Contiguous(workers, app, CountsOf(lines))
            && FirstCount(lines, kind) == low
            && Pruned(workers, app, base, Scaled(base, map[kind := -1])) == FirstWorkers(app, kind, high - 1)
  {
    IsKindIsGood(kind);
    LineReadsBack(kind, low);
    LineReadsBack(kind, high);
    hide ParseLine, CountLine, CountsOf, FirstCount, WithDefaults, Scaled, Pruned, Contiguous, FirstWorkers;
    var lines := [CountLine(kind, low), CountLine(kind, high)];
    TwoLines(kind, lines[0], low, lines[1], high);
    FirstWorkersAreContiguous(app, kind, high);
    PrunesTheTop(app, kind, high);
  }
}
