/**
 The release log behind `riku rollback` (crates/riku-deploy/src/releases.rs):
 one `<time> <revision>` line for each deploy, read back as the history.
 */
module Releases {
  import opened Wrappers
  import opened Text

  type U64 = n: nat | n <= U64_MAX

  datatype Release = Release(ts: U64, sha: string)

  // ---- The log as text ----

  function ParseEntry(line: string): Option<Release> {
    match SplitOnce(line, " ")
    case None => None
    case Some((ts, sha)) =>
      match ParseUnsigned(Trim(ts), U64_MAX)
      case Some(n) => if n <= U64_MAX then Some(Release(n, Trim(sha))) else None
      case None => None
  }

  function Entries(lines: seq<string>): seq<Release> {
    if lines == [] then []
    else (match ParseEntry(lines[0]) case Some(r) => [r] case None => []) + Entries(lines[1..])
  }

  /** `list` of a file that can be read: the readable lines, oldest first. A missing file has none. */
  function List(text: Option<string>): seq<Release> {
    if text.Some? then Entries(Lines(text.value)) else []
  }

  function EntryLine(ts: U64, sha: string): string { Decimal(ts) + " " + sha }

  predicate IsCurrent(history: seq<Release>, sha: string) {
    history != [] && history[|history| - 1].sha == sha
  }

  /** `list`: a file that cannot be read has no releases either. */
  function Known(text: Option<string>, readable: bool): seq<Release> { if readable then List(text) else [] }

  /** `record`: appends a line unless the revision is known to be the current one. */
  function Recorded(text: Option<string>, readable: bool, ts: U64, sha: string): Option<string> {
    if IsCurrent(Known(text, readable), sha) then text
    else Some((if text.Some? then text.value else "") + EntryLine(ts, sha) + "\n")
  }

  /** No line is left open. */
  predicate Closed(text: Option<string>) {
    text.None? || text.value == "" || text.value[|text.value| - 1] == '\n'
  }

  lemma {:induction false} EntriesAppend(a: seq<string>, b: seq<string>)
    ensures Entries(a + b) == Entries(a) + Entries(b)
  {
    hide ParseEntry;
    if a == [] {
      assert a + b == b;
    } else {
      assert (a + b)[1..] == a[1..] + b;
      EntriesAppend(a[1..], b);
    }
  }

  lemma {:induction false} TrimDropsCr(s: string)
    ensures Trim(StripCr(s)) == Trim(s)
  {
    if EndsWith(s, "\r") {
      var head := s[..|s| - 1];
      assert s == head + "\r";
      TrimTail(head, '\r');
    }
  }

  lemma {:induction false} TrimTail(s: string, c: char)
    requires IsWhite(c)
    ensures Trim(s + [c]) == Trim(s)
  {
    if s == "" {
      assert s + [c] == [c] && [c][1..] == "";
    } else if IsWhite(s[0]) {
      assert (s + [c])[1..] == s[1..] + [c];
      TrimTail(s[1..], c);
    } else {
      assert (s + [c])[..|s|] == s;
    }
  }

  /** Only a revision's own final `\r` can be dropped with the line end. */
  lemma {:induction false} LineKeepsTime(ts: U64, sha: string)
    requires '\n' !in sha
    ensures Lines(EntryLine(ts, sha) + "\n") == [Decimal(ts) + " " + StripCr(sha)]
  {
    var line := EntryLine(ts, sha);
    LinesStep(line, "");
    assert line + "\n" == line + "\n" + "";
    assert line[|line| - 1..] == if sha == "" then " " else sha[|sha| - 1..];
    assert EndsWith(line, "\r") <==> EndsWith(sha, "\r");
    assert StripCr(line) == Decimal(ts) + " " + StripCr(sha);
  }

  lemma {:induction false} EntryParses(ts: U64, sha: string)
    ensures ParseEntry(Decimal(ts) + " " + sha) == Some(Release(ts, Trim(sha)))
  {
    var digits := Decimal(ts);
    DecimalTrimmed(ts);
    FindAfter(digits, " ", sha);
    TrimIsTrimmed(digits);
    ParseDecimal(ts, U64_MAX);
    hide Find, Trim, ParseUnsigned, Decimal;
  }

  /** A line written for a revision reads back as that release, less surrounding blanks. */
  lemma {:induction false} EntryReadsBack(ts: U64, sha: string)
    requires '\n' !in sha
    ensures Entries(Lines(EntryLine(ts, sha) + "\n")) == [Release(ts, Trim(sha))]
  {
    hide Lines, ParseEntry, Trim, StripCr, Decimal;
    LineKeepsTime(ts, sha);
    EntryParses(ts, StripCr(sha));
    TrimDropsCr(sha);
  }

  /** Recording adds exactly one release at the end, or none when it is known to be the current one. */
  lemma {:induction false} RecordAppends(text: Option<string>, readable: bool, ts: U64, sha: string)
    requires Closed(text) && '\n' !in sha
    ensures Closed(Recorded(text, readable, ts, sha))
    ensures List(Recorded(text, readable, ts, sha)) ==
            List(text) + if readable && IsCurrent(List(text), sha) then [] else [Release(ts, Trim(sha))]
  {
    if !IsCurrent(Known(text, readable), sha) {
      var before, entry := if text.Some? then text.value else "", EntryLine(ts, sha) + "\n";
      assert Recorded(text, readable, ts, sha).value == before + entry;
      LinesAppend(before, entry);
      EntriesAppend(Lines(before), Lines(entry));
      EntryReadsBack(ts, sha);
      assert Entries(Lines(before)) == List(text);
    }
  }

  // ---- Adjacent releases ----

  ghost predicate Changing(history: seq<Release>) {
    forall i | 0 < i < |history| :: history[i - 1].sha != history[i].sha
  }

  lemma {:induction false} AppendStaysChangingIff(history: seq<Release>, next: Release)
    requires Changing(history)
    ensures Changing(history + [next]) <==> !IsCurrent(history, next.sha)
  {
    var n, longer := |history|, history + [next];
    assert longer[..n] == history;
    forall i | 0 < i < n
      ensures longer[i - 1].sha != longer[i].sha
    {
      assert longer[i - 1] == history[i - 1] && longer[i] == history[i];
    }
    if n > 0 {
      assert longer[n - 1] == history[n - 1] && longer[n] == next;
    }
  }

  /**
   Exactly when recording keeps adjacent releases different: the log could be read
   and the revision has no blanks around it, or it reads back as another one than
   the current.
   */
  lemma {:induction false} RecordStaysChangingIff(text: Option<string>, readable: bool, ts: U64, sha: string)
    requires Closed(text) && '\n' !in sha && Changing(List(text))
    ensures Changing(List(Recorded(text, readable, ts, sha))) <==>
            (readable && Trim(sha) == sha) || !IsCurrent(List(text), Trim(sha))
  {
    var before := List(text);
    RecordAppends(text, readable, ts, sha);
    if readable && IsCurrent(before, sha) {
      CurrentIsTrimmed(text);
    } else {
      hide List, Recorded, Trim;
      AppendStaysChangingIff(before, Release(ts, Trim(sha)));
    }
  }

  /** Everything in the history is free of surrounding blanks. */
  lemma {:induction false} EntriesAreTrimmed(lines: seq<string>)
    ensures forall r <- Entries(lines) :: Trim(r.sha) == r.sha
  {
    if lines != [] {
      EntriesAreTrimmed(lines[1..]);
      if ParseEntry(lines[0]).Some? {
        var raw := SplitOnce(lines[0], " ").value.1;
        TrimIsTrimmed(raw);
        TrimIsTrimmed(Trim(raw));
      }
    }
  }

  lemma {:induction false} CurrentIsTrimmed(text: Option<string>)
    requires List(text) != []
    ensures var last := List(text)[|List(text)| - 1].sha; Trim(last) == last
  {
    EntriesAreTrimmed(Lines(text.value));
    assert List(text)[|List(text)| - 1] in List(text);
  }

  /**
   Recording a revision with a blank after it, twice, lists it twice in a row. The
   deploy never does: it records what `git rev-parse` prints, trimmed.
   */
  lemma {:induction false} ABlankRepeatsARelease(ts: U64, sha: string)
    requires sha != "" && !IsWhite(sha[0]) && !IsWhite(sha[|sha| - 1]) && '\n' !in sha
    ensures !Changing(List(Recorded(Recorded(None, true, ts, sha + " "), true, ts, sha + " ")))
  {
    var blank := sha + " ";
    TrimTail(sha, ' ');
    TrimIsTrimmed(sha);
    RecordAppends(None, true, ts, blank);
    var once := Recorded(None, true, ts, blank);
    assert List(once) == [Release(ts, Trim(blank))];
    RecordStaysChangingIff(once, true, ts, blank);
  }

  /** So is any revision that is recorded again while the log cannot be read, and the record succeeds. */
  lemma {:induction false} AnUnreadLogRepeatsARelease(ts: U64, sha: string)
    requires '\n' !in sha
    ensures !Changing(List(Recorded(Recorded(None, true, ts, sha), false, ts, sha)))
  {
    RecordAppends(None, true, ts, sha);
    var once := Recorded(None, true, ts, sha);
    assert List(once) == [Release(ts, Trim(sha))];
    RecordStaysChangingIff(once, false, ts, sha);
  }

  // ---- After a line left open ----

  function Entry(line: string): seq<Release> {
    match ParseEntry(line)
    case Some(release) => [release]
    case None => []
  }

  /** What follows the last line end of a log. */
  function OpenLine(text: string): (open: string)
    ensures |open| <= |text|
  {
    if text == "" || text[|text| - 1] == '\n' then ""
    else OpenLine(text[..|text| - 1]) + [text[|text| - 1]]
  }

  function WholeLines(text: string): string { text[..|text| - |OpenLine(text)|] }

  /** Every log is whole lines and then a line left open, which may be empty. */
  lemma {:induction false} EveryLogSplits(text: string)
    ensures text == WholeLines(text) + OpenLine(text)
    ensures Closed(Some(WholeLines(text))) && '\n' !in OpenLine(text)
  {
    if !Closed(Some(text)) {
      var n := |text| - 1;
      EveryLogSplits(text[..n]);
      assert text == text[..n] + [text[n]];
      assert WholeLines(text) == WholeLines(text[..n]);
    }
  }

  /**
   What any log lists, and what it lists after a record: its whole lines stay, and
   a new line is read together with the open one, which may be empty.
   */
  lemma {:induction false} RecordOnAnyLog(text: string, readable: bool, ts: U64, sha: string)
    requires '\n' !in sha && Trim(sha) == sha
    ensures List(Some(text)) == Entries(Lines(WholeLines(text))) + Entry(OpenLine(text))
    ensures List(Recorded(Some(text), readable, ts, sha)) ==
            if readable && IsCurrent(List(Some(text)), sha) then List(Some(text))
            else Entries(Lines(WholeLines(text))) + Entry(OpenLine(text) + EntryLine(ts, sha))
  {
    EveryLogSplits(text);
    var head, open := WholeLines(text), OpenLine(text);
    hide Lines, Entries, Entry, EntryLine, Trim, WholeLines, OpenLine;
    OneLine(open);
    EntriesOfBoth(head, open);
    if !IsCurrent(Known(Some(text), readable), sha) {
      var line := open + EntryLine(ts, sha);
      ClosedLine(open, ts, sha);
      EntriesOfBoth(head, line + "\n");
      assert head + open + EntryLine(ts, sha) + "\n" == head + (line + "\n");
    }
  }

  lemma {:induction false} EntriesOfBoth(head: string, more: string)
    requires Closed(Some(head))
    ensures Entries(Lines(head + more)) == Entries(Lines(head)) + Entries(Lines(more))
  {
    LinesAppend(head, more);
    hide Lines;
    EntriesAppend(Lines(head), Lines(more));
  }

  lemma {:induction false} OneLine(open: string)
    requires '\n' !in open
    ensures Entries(Lines(open)) == Entry(open)
  {
    if open != "" {
      FindNothing(open, "\n");
      assert Lines(open) == [open];
      assert Entries([open]) == Entry(open) + Entries([]);
    }
  }

  lemma {:induction false} ClosedLine(open: string, ts: U64, sha: string)
    requires '\n' !in open && '\n' !in sha && Trim(sha) == sha
    ensures Entries(Lines(open + EntryLine(ts, sha) + "\n")) == Entry(open + EntryLine(ts, sha))
  {
    var line := open + EntryLine(ts, sha);
    TrimIsTrimmed(sha);
    assert line[|line| - 1..] == if sha == "" then " " else sha[|sha| - 1..];
    assert !EndsWith(line, "\r");
    assert line + "\n" == line + "\n" + "";
    LinesStep(line, "");
    hide ParseEntry, EntryLine;
    assert Entries([line]) == Entry(line) + Entries([]);
  }

  /** Text between two that is not blank at its ends survives trimming. */
  lemma {:induction false} TrimKeepsInner(before: string, ink: string, after: string)
    requires ink != "" && !IsWhite(ink[0]) && !IsWhite(ink[|ink| - 1])
    ensures |Trim(before + ink + after)| >= |ink|
  {
    if before != "" && IsWhite(before[0]) {
      assert (before + ink + after)[1..] == before[1..] + ink + after;
      TrimKeepsInner(before[1..], ink, after);
    } else {
      assert TrimStart(before + ink + after) == before + ink + after;
      TrimEndKeepsInner(before, ink, after);
    }
  }

  lemma {:induction false} TrimEndKeepsInner(before: string, ink: string, after: string)
    requires ink != "" && !IsWhite(ink[|ink| - 1])
    ensures |TrimEnd(before + ink + after)| >= |ink|
  {
    var text := before + ink + after;
    if after == "" {
      assert text[|text| - 1] == ink[|ink| - 1];
    } else if IsWhite(after[|after| - 1]) {
      assert text[..|text| - 1] == before + ink + after[..|after| - 1];
      TrimEndKeepsInner(before, ink, after[..|after| - 1]);
    }
  }

  lemma {:induction false} GluedIsAnother(before: string, ts: U64, sha: string)
    requires Trim(sha) == sha
    ensures Trim(before + EntryLine(ts, sha)) != sha
  {
    var digits := Decimal(ts);
    DecimalTrimmed(ts);
    TrimIsTrimmed(sha);
    assert digits[0] in digits && digits[|digits| - 1] in digits;
    hide Trim, Decimal;
    if sha == "" {
      assert before + EntryLine(ts, sha) == before + digits + " ";
      TrimKeepsInner(before, digits, " ");
    } else {
      var ink := digits + " " + sha;
      assert before + EntryLine(ts, sha) == before + ink + "";
      TrimKeepsInner(before, ink, "");
    }
  }

  /** What the open line and a new one read as together. */
  lemma {:induction false} OpenEntry(open: string, ts: U64, sha: string)
    requires Trim(sha) == sha
    ensures ' ' !in open ==>
              ParseEntry(open + EntryLine(ts, sha)) ==
              match ParseUnsigned(Trim(open + Decimal(ts)), U64_MAX)
              case Some(n) => if n <= U64_MAX then Some(Release(n, sha)) else None
              case None => None
    ensures ' ' in open ==>
              && (ParseEntry(open + EntryLine(ts, sha)).None? <==> ParseEntry(open).None?)
              && (ParseEntry(open).Some? ==> ParseEntry(open + EntryLine(ts, sha)).value.sha != sha)
  {
    var line := open + EntryLine(ts, sha);
    if ' ' !in open {
      assert line == open + Decimal(ts) + " " + sha;
      FindAfter(open + Decimal(ts), " ", sha);
    } else {
      if Find(open, " ").None? {
        NoHit(open, ' ');
      }
      FirstHit(open, ' ');
      var i := Find(open, " ").value;
      var time, rest := open[..i], open[i + 1..];
      assert open == time + " " + rest;
      assert line == time + " " + (rest + EntryLine(ts, sha));
      FindAfter(time, " ", rest);
      FindAfter(time, " ", rest + EntryLine(ts, sha));
      GluedIsAnother(rest, ts, sha);
    }
  }

  /**
   Exactly when a revision is the current one after it was recorded, on any log:
   it was known to be; or the open line, if there is one, holds no blank and with
   the new time behind it reads as a number; or it was, unknown, and the new line
   is lost with the open one.
   */
  lemma {:induction false} RecordedIsCurrentIff(text: string, readable: bool, ts: U64, sha: string)
    requires '\n' !in sha && Trim(sha) == sha
    ensures var open, current := OpenLine(text), IsCurrent(List(Some(text)), sha);
            IsCurrent(List(Recorded(Some(text), readable, ts, sha)), sha) <==>
            || (readable && current)
            || (' ' !in open && ParseUnsigned(Trim(open + Decimal(ts)), U64_MAX).Some?)
            || (current && ParseEntry(open + EntryLine(ts, sha)).None?)
  {
    var open := OpenLine(text);
    RecordOnAnyLog(text, readable, ts, sha);
    OpenEntry(open, ts, sha);
    hide List, Recorded, Trim, Lines, OpenLine, WholeLines;
    var line := open + EntryLine(ts, sha);
    if ParseEntry(line).None? {
      assert Entry(line) == [];
      assert ParseEntry(open).None? by {
        if ' ' !in open {
          hide ParseUnsigned;
          FindNothing(open, " ");
        }
      }
      assert Entry(open) == [];
    } else {
      assert Entry(line) == [ParseEntry(line).value];
    }
  }

  /** It can be lost: after a line that lacks only its end, the next revision never becomes the current one. */
  lemma {:induction false} ATornWriteCanLoseARelease(before: U64, torn: string, readable: bool, ts: U64, sha: string)
    requires '\n' !in torn && '\n' !in sha && Trim(torn) == torn && Trim(sha) == sha && torn != sha
    ensures List(Some(EntryLine(before, torn))) == [Release(before, torn)]
    ensures !IsCurrent(List(Recorded(Some(EntryLine(before, torn)), readable, ts, sha)), sha)
  {
    var open := EntryLine(before, torn);
    assert open[|Decimal(before)|] == ' ';
    NoLineEnd(open);
    EntryParses(before, torn);
    RecordOnAnyLog(open, readable, ts, sha);
    assert List(Some(open)) == [Release(before, torn)] by {
      assert WholeLines(open) == "" && Entries(Lines("")) == [];
    }
    hide List, Recorded, ParseEntry, EntryLine, Trim, OpenLine;
    RecordedIsCurrentIff(open, readable, ts, sha);
  }

  lemma {:induction false} NoLineEnd(text: string)
    requires '\n' !in text
    ensures OpenLine(text) == text
  {
    if text != "" {
      var n := |text| - 1;
      assert text == text[..n] + [text[n]];
      NoLineEnd(text[..n]);
    }
  }

  /**
   Exactly when adjacent releases of any log stay different: the revision was known
   to be the current one, or what the joined line lists is not the one before it.
   */
  lemma {:induction false} AnyLogStaysChangingIff(text: string, readable: bool, ts: U64, sha: string)
    requires '\n' !in sha && Trim(sha) == sha && Changing(List(Some(text)))
    ensures Changing(List(Recorded(Some(text), readable, ts, sha))) <==>
            || (readable && IsCurrent(List(Some(text)), sha))
            || match ParseEntry(OpenLine(text) + EntryLine(ts, sha))
               case Some(release) => !IsCurrent(Entries(Lines(WholeLines(text))), release.sha)
               case None => true
  {
    RecordOnAnyLog(text, readable, ts, sha);
    hide List, Recorded, Trim, Lines, ParseEntry, OpenLine, WholeLines;
    var before, open := Entries(Lines(WholeLines(text))), OpenLine(text);
    var line := open + EntryLine(ts, sha);
    PrefixStaysChanging(before, Entry(open));
    if ParseEntry(line).Some? {
      AppendStaysChangingIff(before, ParseEntry(line).value);
    } else {
      assert before + Entry(line) == before;
    }
  }

  lemma {:induction false} PrefixStaysChanging(a: seq<Release>, b: seq<Release>)
    requires Changing(a + b)
    ensures Changing(a)
  {
    forall i | 0 < i < |a|
      ensures a[i - 1].sha != a[i].sha
    {
      assert (a + b)[i - 1] == a[i - 1] && (a + b)[i] == a[i];
    }
  }

  // ---- Logs built by recording ----

  /** A deploy: when it was recorded, its revision, and whether the log could be read to record it. */
  datatype Deploy = Deploy(ts: U64, sha: string, readable: bool)

  function Log(deploys: seq<Deploy>): Option<string> {
    if deploys == [] then None
    else
      var last := deploys[|deploys| - 1];
      Recorded(Log(deploys[..|deploys| - 1]), last.readable, last.ts, last.sha)
  }

  ghost predicate CleanShas(deploys: seq<Deploy>) {
    forall d <- deploys :: Trim(d.sha) == d.sha && '\n' !in d.sha
  }

  /** The deploy repeats the revision before it, and the log could be read to see that. */
  predicate Skipped(deploys: seq<Deploy>, i: nat)
    requires i < |deploys|
  {
    i > 0 && deploys[i - 1].sha == deploys[i].sha && deploys[i].readable
  }

  /** The deploys without those that were seen to repeat the revision before them. */
  function Changes(deploys: seq<Deploy>): (history: seq<Release>)
    ensures deploys != [] ==> history != [] && history[|history| - 1].sha == deploys[|deploys| - 1].sha
  {
    if deploys == [] then []
    else
      var last := deploys[|deploys| - 1];
      var earlier := Changes(deploys[..|deploys| - 1]);
      if Skipped(deploys, |deploys| - 1) then earlier else earlier + [Release(last.ts, last.sha)]
  }

  /** Every repetition of a revision was recorded with the log readable. */
  ghost predicate RepeatsAreRead(deploys: seq<Deploy>) {
    forall i | 0 < i < |deploys| && deploys[i - 1].sha == deploys[i].sha :: deploys[i].readable
  }

  lemma {:induction false} LogLists(deploys: seq<Deploy>)
    requires CleanShas(deploys)
    ensures Closed(Log(deploys)) && List(Log(deploys)) == Changes(deploys)
  {
    if deploys != [] {
      var n := |deploys| - 1;
      var last, earlier := deploys[n], deploys[..n];
      assert last in deploys;
      LogLists(earlier);
      hide List, Recorded, Closed, Trim;
      RecordAppends(Log(earlier), last.readable, last.ts, last.sha);
      assert n > 0 ==> earlier[n - 1] == deploys[n - 1];
      assert Log(deploys) == Recorded(Log(earlier), last.readable, last.ts, last.sha);
    }
  }

  lemma {:induction false} RepeatsStep(deploys: seq<Deploy>)
    requires deploys != []
    ensures var n := |deploys| - 1;
            RepeatsAreRead(deploys) <==>
            RepeatsAreRead(deploys[..n]) && (n > 0 && deploys[n - 1].sha == deploys[n].sha ==> deploys[n].readable)
  {
    var earlier := deploys[..|deploys| - 1];
    assert forall i | 0 <= i < |earlier| :: earlier[i] == deploys[i];
    if RepeatsAreRead(deploys) {
      forall i | 0 < i < |earlier| && earlier[i - 1].sha == earlier[i].sha
        ensures earlier[i].readable
      {
        assert deploys[i - 1].sha == deploys[i].sha;
      }
    }
  }

  lemma {:induction false} ChangesDifferIff(deploys: seq<Deploy>)
    ensures Changing(Changes(deploys)) <==> RepeatsAreRead(deploys)
  {
    if deploys != [] {
      var n := |deploys| - 1;
      var last, earlier := deploys[n], deploys[..n];
      ChangesDifferIff(earlier);
      RepeatsStep(deploys);
      assert n > 0 ==> earlier[n - 1] == deploys[n - 1];
      hide RepeatsAreRead;
      if !Skipped(deploys, n) {
        if Changing(Changes(earlier)) {
          AppendStaysChangingIff(Changes(earlier), Release(last.ts, last.sha));
        } else if Changing(Changes(deploys)) {
          PrefixStaysChanging(Changes(earlier), [Release(last.ts, last.sha)]);
        }
      }
    }
  }

  /**
   The log of any deploys lists exactly those that were not seen to repeat the
   revision before them. Adjacent releases all differ if and only if the log could
   be read at every deploy of a revision that was the current one already.
   */
  lemma {:induction false} LogListsTheChanges(deploys: seq<Deploy>)
    requires CleanShas(deploys)
    ensures Closed(Log(deploys))
    ensures List(Log(deploys)) == Changes(deploys)
    ensures Changing(List(Log(deploys))) <==> RepeatsAreRead(deploys)
  {
    LogLists(deploys);
    ChangesDifferIff(deploys);
  }

  // ---- Rolling back ----

  /** `previous`: where a rollback without a target goes. */
  function Previous(history: seq<Release>): Option<string> {
    if history == [] then None else LatestOther(history, history[|history| - 1].sha)
  }

  function LatestOther(history: seq<Release>, current: string): Option<string> {
    if history == [] then None
    else
      var last := history[|history| - 1].sha;
      if last != current then Some(last) else LatestOther(history[..|history| - 1], current)
  }

  /** In any history the default target is the last revision that differs from the current one, if there is one. */
  lemma {:induction false} LatestOtherIs(history: seq<Release>, current: string)
    ensures match LatestOther(history, current)
            case None => forall r <- history :: r.sha == current
            case Some(sha) =>
              && sha != current
              && exists i | 0 <= i < |history| ::
                   history[i].sha == sha && forall j | i < j < |history| :: history[j].sha == current
  {
    if history != [] {
      var n := |history| - 1;
      if history[n].sha == current {
        LatestOtherIs(history[..n], current);
        if LatestOther(history, current).Some? {
          var i :| 0 <= i < n && history[..n][i].sha == LatestOther(history, current).value &&
                   forall j | i < j < n :: history[..n][j].sha == current;
          assert history[i].sha == LatestOther(history, current).value;
          assert forall j | i < j < |history| :: history[j].sha == current by {
            forall j | i < j < |history|
              ensures history[j].sha == current
            {
              assert j < n ==> history[..n][j].sha == current;
            }
          }
        } else {
          forall r | r in history
            ensures r.sha == current
          {
            var i :| 0 <= i < |history| && history[i] == r;
            assert i < n ==> r in history[..n];
          }
        }
      } else {
        assert history[n].sha == LatestOther(history, current).value;
      }
    }
  }

  /** Where adjacent releases differ, the default target is the one before the last. */
  lemma {:induction false} PreviousIsSecondToLast(history: seq<Release>)
    requires Changing(history)
    ensures Previous(history) == if |history| < 2 then None else Some(history[|history| - 2].sha)
  {
    var n := |history|;
    if n == 1 {
      assert LatestOther(history[..0], history[0].sha) == None;
    } else if n > 1 {
      assert history[n - 2].sha != history[n - 1].sha;
      assert history[..n - 1][n - 2] == history[n - 2];
      assert LatestOther(history[..n - 1], history[n - 1].sha) == Some(history[n - 2].sha);
    }
  }

  /** A default rollback, and whether the log could be read to find its target and then to record it. */
  datatype Rollback = Rollback(ts: U64, found: bool, readable: bool)

  /** The previous revision is deployed and recorded; without one nothing happens. */
  function RolledBack(text: Option<string>, step: Rollback): Option<string> {
    match Previous(Known(text, step.found))
    case None => text
    case Some(sha) => Recorded(text, step.readable, step.ts, sha)
  }

  function Rollbacks(text: Option<string>, steps: seq<Rollback>): Option<string> {
    if steps == [] then text
    else RolledBack(Rollbacks(text, steps[..|steps| - 1]), steps[|steps| - 1])
  }

  /** How many of the rollbacks could read the log to find their target. */
  function Found(steps: seq<Rollback>): nat {
    if steps == [] then 0
    else Found(steps[..|steps| - 1]) + if steps[|steps| - 1].found then 1 else 0
  }

  ghost predicate Clean(text: Option<string>) {
    Closed(text) && forall r <- List(text) :: '\n' !in r.sha
  }

  lemma {:induction false} PreviousAfter(history: seq<Release>, ts: U64)
    requires Previous(history).Some?
    ensures var next := history + [Release(ts, Previous(history).value)];
            && Previous(next) == Some(history[|history| - 1].sha)
            && (Changing(history) ==> Changing(next))
  {
    var target := Previous(history).value;
    var next := history + [Release(ts, target)];
    LatestOtherIs(history, history[|history| - 1].sha);
    assert next[..|next| - 1] == history;
    assert LatestOther(history, target) == Some(history[|history| - 1].sha);
    if Changing(history) {
      AppendStaysChangingIff(history, Release(ts, target));
    }
  }

  /** A rollback appends the previous release, whether or not the record reads the log, and leaves it fit for the next. */
  lemma {:induction false} RollbackAppends(text: Option<string>, step: Rollback)
    requires Clean(text) && Previous(List(text)).Some?
    ensures Clean(RolledBack(text, step))
    ensures List(RolledBack(text, step)) ==
            if step.found then List(text) + [Release(step.ts, Previous(List(text)).value)] else List(text)
  {
    if step.found {
      var history := List(text);
      var target := Previous(history).value;
      LatestOtherIs(history, history[|history| - 1].sha);
      var i :| 0 <= i < |history| && history[i].sha == target;
      assert history[i] in history;
      EntriesAreTrimmed(Lines(text.value));
      assert Trim(target) == target;
      RecordAppends(text, step.readable, step.ts, target);
    }
  }

  /**
   Any number of default rollbacks in a row moves between two releases only, the
   current one and the one before it: an even number of them returns to the
   starting one. Those that cannot read the log do nothing and do not count.
   */
  lemma {:induction false} RollbacksAlternate(text: Option<string>, steps: seq<Rollback>)
    requires Clean(text) && Previous(List(text)).Some?
    ensures var history, after := List(text), List(Rollbacks(text, steps));
            var current, other := history[|history| - 1].sha, Previous(history).value;
            && Clean(Rollbacks(text, steps))
            && |after| == |history| + Found(steps) && history <= after
            && after[|after| - 1].sha == (if Found(steps) % 2 == 0 then current else other)
            && Previous(after) == Some(if Found(steps) % 2 == 0 then other else current)
            && (Changing(history) ==> Changing(after))
  {
    hide List, RolledBack, Clean, Previous, Changing;
    if steps != [] {
      var earlier, step := steps[..|steps| - 1], steps[|steps| - 1];
      RollbacksAlternate(text, earlier);
      var before, after := List(Rollbacks(text, earlier)), List(Rollbacks(text, steps));
      RollbackAppends(Rollbacks(text, earlier), step);
      if step.found {
        PreviousAfter(before, step.ts);
        assert after == before + [Release(step.ts, Previous(before).value)];
      }
    }
  }

  predicate HasSha(history: seq<Release>, sha: string) {
    history != [] && (history[|history| - 1].sha == sha || HasSha(history[..|history| - 1], sha))
  }

  lemma {:induction false} AnotherGivesATarget(history: seq<Release>, current: string, sha: string)
    requires HasSha(history, sha) && sha != current
    ensures LatestOther(history, current).Some?
  {
    var n := |history| - 1;
    if history[n].sha == current {
      AnotherGivesATarget(history[..n], current, sha);
    }
  }

  lemma {:induction false} ChangesKeepShas(deploys: seq<Deploy>, i: nat)
    requires i < |deploys|
    ensures HasSha(Changes(deploys), deploys[i].sha)
  {
    var n := |deploys| - 1;
    if i < n {
      var earlier := deploys[..n];
      ChangesKeepShas(earlier, i);
      assert Changes(deploys) != Changes(earlier) ==> Changes(deploys)[..|Changes(deploys)| - 1] == Changes(earlier);
    }
  }

  lemma {:induction false} ChangesAreClean(deploys: seq<Deploy>)
    requires CleanShas(deploys)
    ensures forall r <- Changes(deploys) :: '\n' !in r.sha
  {
    if deploys != [] {
      assert deploys[|deploys| - 1] in deploys;
      ChangesAreClean(deploys[..|deploys| - 1]);
    }
  }

  /** A log built by deploys is fit to roll back, and has a target if some deploy was of another revision. */
  lemma {:induction false} LogIsClean(deploys: seq<Deploy>, i: nat)
    requires CleanShas(deploys) && i < |deploys| && deploys[i].sha != deploys[|deploys| - 1].sha
    ensures Clean(Log(deploys)) && Previous(List(Log(deploys))).Some?
  {
    LogLists(deploys);
    ChangesAreClean(deploys);
    hide List, Log, Closed;
    ChangesKeepShas(deploys, i);
    AnotherGivesATarget(Changes(deploys), deploys[|deploys| - 1].sha, deploys[i].sha);
  }

  /** After any deploys of two or more revisions, two default rollbacks that find their targets return to the last one. */
  lemma {:induction false} TwoRollbacksReturn(deploys: seq<Deploy>, i: nat, first: Rollback, second: Rollback)
    requires CleanShas(deploys) && i < |deploys| && deploys[i].sha != deploys[|deploys| - 1].sha
    requires first.found && second.found
    ensures IsCurrent(List(Rollbacks(Log(deploys), [first, second])), deploys[|deploys| - 1].sha)
  {
    hide List, Log, Clean, Rollbacks, Changing, CleanShas, Previous;
    LogIsClean(deploys, i);
    LogLists(deploys);
    var steps := [first, second];
    assert steps[..1] == [first] && [first][..0] == [];
    assert Found([first]) == 1;
    assert Found(steps) == 2;
    RollbacksAlternate(Log(deploys), steps);
  }

  lemma {:induction false} PartIsBeginning(before: string, line: string, written: nat)
    requires written <= |line|
    ensures before <= before + line[..written] <= before + line
  {
    assert before + line == before + line[..written] + line[written..];
  }

  // ---- The log file ----

  class ReleaseLog {
    var text: Option<string>
    var faults: nat
    /** How often the log could not be read. */
    var unread: nat

    constructor ()
      ensures text == None && faults == 0 && unread == 0
    {
      text, faults, unread := None, 0, 0;
    }

    /**
     Without a fault the release is recorded; a failed write may leave part of its
     line. A log that cannot be read is no fault, but counts as empty.
     */
    method Record(ts: U64, sha: string) returns (ok: bool, ghost readable: bool)
      modifies this
      ensures unread == old(unread) + if readable then 0 else 1
      ensures ok ==> text == Recorded(old(text), readable, ts, sha)
      ensures !ok ==> text == old(text) || (Recorded(old(text), readable, ts, sha).Some? && text.Some? &&
                      text.value <= Recorded(old(text), readable, ts, sha).value)
      ensures old(text).Some? ==> text.Some? && old(text).value <= text.value
      ensures faults >= old(faults) && (ok <==> faults == old(faults))
    {
      hide List, EntryLine;
      var read: bool := *;
      readable := read;
      if !read {
        unread := unread + 1;
      }
      if IsCurrent(Known(text, read), sha) {
        return true, readable;
      }
      ok := *;
      if !ok {
        faults := faults + 1;
        return;
      }
      var before := if text.Some? then text.value else "";
      var line := EntryLine(ts, sha) + "\n";
      assert before + line == Recorded(text, read, ts, sha).value by {
        assert before + line == before + EntryLine(ts, sha) + "\n";
      }
      ok := *;
      if ok {
        text := Some(before + line);
      } else {
        var written: nat :| written <= |line|;
        text, faults := Some(before + line[..written]), faults + 1;
        PartIsBeginning(before, line, written);
      }
    }
  }
}
