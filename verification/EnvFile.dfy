/**
 ENV files with variable expansion (crates/riku-util/src/env.rs).

 `isWord` stands for the regex class `\w`, which is Unicode's. The theorems
 hold for any such class; one needs that the dollar sign is not in it.
 */
module EnvFile {
  import opened Wrappers
  import opened Text

  type Env = map<string, string>

  // ---- Expansion ----

  function WordLength(s: string, isWord: char -> bool): (n: nat)
    ensures n <= |s|
  {
    if s != "" && isWord(s[0]) then 1 + WordLength(s[1..], isWord) else 0
  }

  /** A `$NAME` or `${NAME}` at the start of `s`: the name and the length of the whole reference. */
  function Reference(s: string, isWord: char -> bool): (r: Option<(string, nat)>)
    ensures r.Some? ==> 2 <= r.value.1 <= |s|
  {
    if s == "" || s[0] != '$' then None
    else
      var word := WordLength(s[1..], isWord);
      if word > 0 then Some((s[1..1 + word], 1 + word))
      else if |s| >= 2 && s[1] == '{' then
        match Find(s[2..], "}")
        case Some(i) => Some((s[2..2 + i], i + 3))
        case None => None
      else None
  }

  /** `expandvars` without a default: an unknown name keeps its text. */
  function Expand(s: string, env: Env, isWord: char -> bool): string
    decreases |s|
  {
    if s == "" then ""
    else
      match Reference(s, isWord)
      case Some((name, length)) =>
        (if name in env then env[name] else s[..length]) + Expand(s[length..], env, isWord)
      case None => [s[0]] + Expand(s[1..], env, isWord)
  }

  /** The names a value refers to. */
  function References(s: string, isWord: char -> bool): set<string>
    decreases |s|
  {
    if s == "" then {}
    else
      match Reference(s, isWord)
      case Some((name, length)) => {name} + References(s[length..], isWord)
      case None => References(s[1..], isWord)
  }

  lemma {:induction false} UnknownNamesStay(s: string, env: Env, isWord: char -> bool)
    requires forall name <- References(s, isWord) :: name !in env
    ensures Expand(s, env, isWord) == s
    decreases |s|
  {
    if s != "" {
      match Reference(s, isWord)
      case Some((name, length)) =>
        assert References(s, isWord) == {name} + References(s[length..], isWord);
        UnknownNamesStay(s[length..], env, isWord);
        assert Expand(s, env, isWord) == s[..length] + s[length..];
      case None =>
        UnknownNamesStay(s[1..], env, isWord);
        assert s == [s[0]] + s[1..];
    }
  }

  lemma {:induction false} WordEnds(word: string, rest: string, isWord: char -> bool)
    requires forall c <- word :: isWord(c)
    requires rest == "" || !isWord(rest[0])
    ensures WordLength(word + rest, isWord) == |word|
  {
    if word == "" {
      assert word + rest == rest;
    } else {
      assert (word + rest)[0] == word[0] && word[0] in word;
      assert (word + rest)[1..] == word[1..] + rest;
      WordEnds(word[1..], rest, isWord);
    }
  }

  /** A dollar sign takes all the word characters after it as a name. */
  lemma {:induction false} WordIsExpanded(word: string, rest: string, env: Env, isWord: char -> bool)
    requires word != "" && (forall c <- word :: isWord(c)) && (rest == "" || !isWord(rest[0]))
    ensures Expand("$" + word + rest, env, isWord) ==
            (if word in env then env[word] else "$" + word) + Expand(rest, env, isWord)
  {
    var s := "$" + word + rest;
    assert s[1..] == word + rest;
    WordEnds(word, rest, isWord);
    assert s[1..1 + |word|] == word && s[..1 + |word|] == "$" + word && s[1 + |word|..] == rest;
  }

  /** A dollar sign and braces take what is between them as a name. */
  lemma {:induction false} BracedIsExpanded(name: string, rest: string, env: Env, isWord: char -> bool)
    requires '}' !in name && !isWord('{')
    ensures Expand("${" + name + "}" + rest, env, isWord) ==
            (if name in env then env[name] else "${" + name + "}") + Expand(rest, env, isWord)
  {
    var s := "${" + name + "}" + rest;
    assert s[1] == '{' && s[1..][0] == '{';
    assert s[2..] == name + "}" + rest;
    FindAfter(name, "}", rest);
    var n := |name| + 3;
    assert s[2..2 + |name|] == name && s[..n] == "${" + name + "}" && s[n..] == rest;
  }

  /** Text without a dollar sign stays as it is, whatever follows it. */
  lemma {:induction false} PlainTextStays(s: string, rest: string, env: Env, isWord: char -> bool)
    requires '$' !in s
    ensures Expand(s + rest, env, isWord) == s + Expand(rest, env, isWord)
  {
    if s == "" {
      assert s + rest == rest;
    } else {
      assert (s + rest)[0] == s[0] && s[0] in s && (s + rest)[1..] == s[1..] + rest;
      PlainTextStays(s[1..], rest, env, isWord);
    }
  }

  /** Every reference of `s` to a name of `env` stands for its own text. */
  predicate OwnTexts(s: string, env: Env, isWord: char -> bool)
    decreases |s|
  {
    if s == "" then true
    else
      match Reference(s, isWord)
      case Some((name, length)) =>
        (name in env ==> env[name] == s[..length]) && OwnTexts(s[length..], env, isWord)
      case None => OwnTexts(s[1..], env, isWord)
  }

  lemma {:induction false} OwnTextsStay(s: string, env: Env, part: Env, isWord: char -> bool)
    requires OwnTexts(s, env, isWord) && forall name <- part :: name in env && part[name] == env[name]
    ensures Expand(s, part, isWord) == s
    decreases |s|
  {
    if s != "" {
      match Reference(s, isWord)
      case Some((name, length)) =>
        OwnTextsStay(s[length..], env, part, isWord);
        assert Expand(s, part, isWord) == s[..length] + s[length..];
      case None =>
        OwnTextsStay(s[1..], env, part, isWord);
        assert s == [s[0]] + s[1..];
    }
  }

  /** Own texts are a matter of one name at a time. */
  lemma {:induction false} OwnTextsByName(s: string, env: Env, isWord: char -> bool)
    requires forall name <- env :: OwnTexts(s, map[name := env[name]], isWord)
    ensures OwnTexts(s, env, isWord)
    decreases |s|
  {
    if s != "" {
      var rest := match Reference(s, isWord) case Some((_, length)) => s[length..] case None => s[1..];
      forall name | name in env
        ensures OwnTexts(rest, map[name := env[name]], isWord)
      {
        assert OwnTexts(s, map[name := env[name]], isWord);
      }
      OwnTextsByName(rest, env, isWord);
      if Reference(s, isWord).Some? {
        var name := Reference(s, isWord).value.0;
        assert name in env ==> OwnTexts(s, map[name := env[name]], isWord);
      }
    }
  }

  predicate IsReferenceTo(text: string, name: string, isWord: char -> bool) {
    || (text == "$" + name && name != "" && isWord(name[0]))
    || text == "${" + name + "}"
  }

  lemma {:induction false} ReferenceForm(s: string, isWord: char -> bool)
    requires Reference(s, isWord).Some?
    ensures var (name, length) := Reference(s, isWord).value; IsReferenceTo(s[..length], name, isWord)
  {
    var word := WordLength(s[1..], isWord);
    if word > 0 {
      assert s[..1 + word] == "$" + s[1..1 + word];
    } else {
      FirstHit(s[2..], '}');
      var i := Find(s[2..], "}").value;
      assert s[2..][i] == s[2 + i];
      assert s[..i + 3] == "${" + s[2..2 + i] + "}";
    }
  }

  /** `s` around its first reference to `name`. */
  datatype Around = Around(head: string, text: string, tail: string)

  ghost predicate FirstReference(s: string, name: string, v: string, isWord: char -> bool, at: Around) {
    var env := map[name := v];
    && s == at.head + (at.text + at.tail) && |at.tail| < |s|
    && IsReferenceTo(at.text, name, isWord)
    && Expand(s, env, isWord) == at.head + (v + Expand(at.tail, env, isWord))
    && (OwnTexts(s, env, isWord) <==> v == at.text && OwnTexts(at.tail, env, isWord))
  }

  lemma {:induction false} FindReference(s: string, name: string, v: string, isWord: char -> bool) returns (at: Around)
    requires name in References(s, isWord)
    ensures FirstReference(s, name, v, isWord, at)
    decreases |s|
  {
    var found := Reference(s, isWord);
    if found.Some? && found.value.0 == name {
      at := Around("", s[..found.value.1], s[found.value.1..]);
      ReferenceHere(s, name, v, isWord);
    } else {
      var length := if found.Some? then found.value.1 else 1;
      NoReferenceHere(s, name, v, isWord, length);
      hide Expand, OwnTexts, References, Reference;
      var rest := FindReference(s[length..], name, v, isWord);
      at := rest.(head := s[..length] + rest.head);
      HeadGrows(s, s[..length], s[length..], name, v, isWord, rest);
    }
  }

  lemma {:induction false} ReferenceHere(s: string, name: string, v: string, isWord: char -> bool)
    requires Reference(s, isWord).Some? && Reference(s, isWord).value.0 == name
    ensures var length := Reference(s, isWord).value.1;
            FirstReference(s, name, v, isWord, Around("", s[..length], s[length..]))
  {
    var env, length := map[name := v], Reference(s, isWord).value.1;
    ReferenceForm(s, isWord);
    assert s == "" + (s[..length] + s[length..]);
    assert Expand(s, env, isWord) == "" + (v + Expand(s[length..], env, isWord));
  }

  lemma {:induction false} NoReferenceHere(s: string, name: string, v: string, isWord: char -> bool, length: nat)
    requires name in References(s, isWord)
    requires match Reference(s, isWord) case Some((found, n)) => found != name && length == n case None => length == 1
    ensures 0 < length <= |s| && s == s[..length] + s[length..] && name in References(s[length..], isWord)
    ensures Expand(s, map[name := v], isWord) == s[..length] + Expand(s[length..], map[name := v], isWord)
    ensures OwnTexts(s, map[name := v], isWord) <==> OwnTexts(s[length..], map[name := v], isWord)
  {
    assert s != "" ==> s[..1] == [s[0]];
  }

  lemma {:induction false} HeadGrows(
      s: string, before: string, after: string, name: string, v: string, isWord: char -> bool, at: Around)
    requires s == before + after && FirstReference(after, name, v, isWord, at)
    requires Expand(s, map[name := v], isWord) == before + Expand(after, map[name := v], isWord)
    requires OwnTexts(s, map[name := v], isWord) <==> OwnTexts(after, map[name := v], isWord)
    ensures FirstReference(s, name, v, isWord, at.(head := before + at.head))
  {
    hide Expand, OwnTexts, IsReferenceTo;
    var more := v + Expand(at.tail, map[name := v], isWord);
    assert before + (at.head + more) == before + at.head + more;
    assert before + (at.head + (at.text + at.tail)) == before + at.head + (at.text + at.tail);
  }

  /** A value no longer than the short form of a reference never makes a text longer, one no shorter than the long form never shorter. */
  lemma {:induction false} ExpandLength(s: string, name: string, v: string, isWord: char -> bool)
    ensures |v| <= |name| + 1 ==> |Expand(s, map[name := v], isWord)| <= |s|
    ensures |v| >= |name| + 3 ==> |Expand(s, map[name := v], isWord)| >= |s|
    decreases |s|
  {
    if s != "" {
      match Reference(s, isWord)
      case Some((found, length)) =>
        ReferenceForm(s, isWord);
        ExpandLength(s[length..], name, v, isWord);
      case None =>
        ExpandLength(s[1..], name, v, isWord);
    }
  }

  /** A text that a letter in front does not change but for its end is that letter over and over. */
  lemma {:induction false} Shifted(x: char, p: string, a: string, b: string)
    requires [x] + (p + a) == p + b
    ensures b == [x] + a
  {
    if p == "" {
      assert p + a == a && p + b == b;
    } else {
      var q := p[1..];
      assert p[0] == (p + b)[0] == x;
      assert [x] + (q + a) == p + a == ([x] + (p + a))[1..] == (p + b)[1..] == q + b;
      Shifted(x, q, a, b);
    }
  }

  lemma {:induction false} LongerByOne(a: string, b: string, c: string, d: string)
    requires a + b == c + d && |a| == |c| + 1
    ensures a == c + [a[|c|]] && d == [a[|c|]] + b
  {
    assert (a + b)[..|c|] == a[..|c|] && (c + d)[..|c|] == c;
    assert (a + b)[|c|..] == a[|c|..] + b && (c + d)[|c|..] == d;
    assert a == a[..|c|] + [a[|c|]] && a[|c|..] == [a[|c|]];
  }

  lemma {:induction false} ShiftedRest(
      text: string, tail: string, v: string, expanded: string, head: string, a: string, b: string)
    requires text + tail == v + expanded && |text| == |v| + 1
    requires tail == head + a && expanded == head + b
    ensures b == [text[|v|]] + a
  {
    LongerByOne(text, tail, v, expanded);
    Shifted(text[|v|], head, a, b);
  }

  /**
   If putting `v` for a reference and expanding what follows gives back the text,
   `v` is as long as the reference: shifted by one, the next reference would have
   to start where the text repeats the letter that makes up the difference.
   */
  lemma {:induction false} NoShift(text: string, tail: string, name: string, v: string, isWord: char -> bool)
    requires !isWord('$') && IsReferenceTo(text, name, isWord)
    requires text + tail == v + Expand(tail, map[name := v], isWord)
    ensures |v| == |text|
  {
    var expanded := Expand(tail, map[name := v], isWord);
    ExpandLength(tail, name, v, isWord);
    assert |text| + |tail| == |v| + |expanded|;
    if |v| != |text| {
      assert |v| == |name| + 2;
      if name !in References(tail, isWord) {
        UnknownNamesStay(tail, map[name := v], isWord);
        assert false;
      } else {
        var at := FindReference(tail, name, v, isWord);
        var more := Expand(at.tail, map[name := v], isWord);
        hide Expand, References, OwnTexts;
        assert text[0] == (text + tail)[0] == '$' && v[0] == (v + expanded)[0];
        if |text| > |v| {
          assert text[|v|] == '}' && (v + more)[0] == '$';
          ShiftedRest(text, tail, v, expanded, at.head, at.text + at.tail, v + more);
          assert false;
        } else {
          assert (at.text + at.tail)[1] == at.text[1] != '$';
          assert ([v[|text|]] + (v + more))[1] == '$';
          ShiftedRest(v, expanded, text, tail, at.head, v + more, at.text + at.tail);
          assert false;
        }
      }
    }
  }

  /** A text stays as it is when one name is expanded if and only if every reference to it stands for its own text. */
  lemma {:induction false} StaysIffOwnTexts(s: string, name: string, v: string, isWord: char -> bool)
    requires !isWord('$')
    ensures Expand(s, map[name := v], isWord) == s <==> OwnTexts(s, map[name := v], isWord)
    decreases |s|
  {
    var env := map[name := v];
    if OwnTexts(s, env, isWord) {
      OwnTextsStay(s, env, env, isWord);
    } else {
      if name !in References(s, isWord) {
        UnknownAreOwn(s, env, isWord);
      } else {
        var at := FindReference(s, name, v, isWord);
        if Expand(s, env, isWord) == s {
          hide Expand, OwnTexts, References;
          var more := Expand(at.tail, env, isWord);
          SameHead(at.head, at.text + at.tail, v + more);
          NoShift(at.text, at.tail, name, v, isWord);
          SameStart(at.text, at.tail, v, more);
          StaysIffOwnTexts(at.tail, name, v, isWord);
        }
      }
    }
  }

  lemma {:induction false} SameHead(head: string, a: string, b: string)
    requires head + a == head + b
    ensures a == b
  {
    assert (head + a)[|head|..] == a && (head + b)[|head|..] == b;
  }

  lemma {:induction false} SameStart(a: string, b: string, c: string, d: string)
    requires a + b == c + d && |a| == |c|
    ensures a == c && b == d
  {
    assert (a + b)[..|a|] == a && (c + d)[..|c|] == c;
    assert (a + b)[|a|..] == b && (c + d)[|c|..] == d;
  }

  lemma {:induction false} UnknownAreOwn(s: string, env: Env, isWord: char -> bool)
    requires forall name <- References(s, isWord) :: name !in env
    ensures OwnTexts(s, env, isWord)
    decreases |s|
  {
    if s != "" {
      match Reference(s, isWord)
      case Some((name, length)) =>
        assert References(s, isWord) == {name} + References(s[length..], isWord);
        UnknownAreOwn(s[length..], env, isWord);
      case None =>
        UnknownAreOwn(s[1..], env, isWord);
    }
  }

  // ---- Reading ----

  predicate Printable(c: char) { !IsControl(c) || c == '\t' }

  function StripControls(s: string): string {
    if s == "" then ""
    else if Printable(s[0]) then [s[0]] + StripControls(s[1..])
    else StripControls(s[1..])
  }

  /** One line applied to the settings read so far; `None` for a malformed line. */
  function ReadLine(env: Env, line: string, isWord: char -> bool): Option<Env> {
    if line == "" || StartsWith(line, "#") || Trim(line) == "" then Some(env)
    else
      match SplitOnce(line, "=")
      case Some((key, value)) =>
        Some(env[Trim(key) := Expand(StripControls(Trim(value)), env, isWord)])
      case None => None
  }

  /** Stripping keeps the characters that are no control characters, and tabs, in order. */
  lemma {:induction false} StripControlsIs(a: string, c: char, b: string)
    ensures StripControls(a + [c] + b) ==
            StripControls(a) + (if IsControl(c) && c != '\t' then "" else [c]) + StripControls(b)
  {
    var s := a + [c] + b;
    if a == "" {
      assert s[0] == c && s[1..] == b;
    } else {
      assert s[0] == a[0] && s[1..] == a[1..] + [c] + b;
      StripControlsIs(a[1..], c, b);
    }
  }

  /**
   A line is malformed if and only if it is neither blank nor a comment and holds no
   equals sign. A setting is its key and value without blanks around them, the value
   stripped and then expanded over the settings so far.
   */
  lemma {:induction false} SettingLineReads(env: Env, key: string, value: string, isWord: char -> bool)
    requires '=' !in key
    ensures key != "" && key[0] == '#' ==> ReadLine(env, key + "=" + value, isWord) == Some(env)
    ensures !(key != "" && key[0] == '#') ==>
              ReadLine(env, key + "=" + value, isWord) ==
              Some(env[Trim(key) := Expand(StripControls(Trim(value)), env, isWord)])
    ensures ReadLine(env, key, isWord) ==
            if Trim(key) == "" || (key != "" && key[0] == '#') then Some(env) else None
  {
    var line := key + "=" + value;
    FindAfter(key, "=", value);
    FindNothing(key, "=");
    assert line[|key|] == '=';
    TrimKeepsInk(line, |key|);
    assert line[0] == if key == "" then '=' else key[0];
    if key == "" {
      assert Trim(key) == "";
    }
  }

  function ReadLines(lines: seq<string>, env: Env, isWord: char -> bool): Option<Env> {
    if lines == [] then Some(env)
    else
      match ReadLines(lines[..|lines| - 1], env, isWord)
      case Some(read) => ReadLine(read, lines[|lines| - 1], isWord)
      case None => None
  }

  /** What reading a file gives; one that cannot be inspected counts as missing. */
  datatype Read = Missing | Unreadable | Content(text: string)

  /**
   `parse_settings` of a file: `None` is the error of a file that cannot be read,
   and a missing file or a malformed line gives an empty map. `left` is what the
   caller's environment is left holding, the settings before the malformed line
   included.
   */
  method ParseSettings(file: Read, env: Env, isWord: char -> bool) returns (settings: Option<Env>, left: Env)
    ensures settings == None <==> file.Unreadable?
    ensures !file.Content? ==> left == env
    ensures file.Missing? ==> settings == Some(map[])
    ensures file.Content? ==>
              match ReadLines(Lines(file.text), env, isWord)
              case Some(read) => settings == Some(read) && left == read
              case None =>
                && settings == Some(map[])
                && exists i | 0 <= i < |Lines(file.text)| ::
                     && ReadLines(Lines(file.text)[..i], env, isWord) == Some(left)
                     && ReadLine(left, Lines(file.text)[i], isWord) == None
  {
    left := env;
    if file.Missing? {
      return Some(map[]), left;
    }
    if file.Unreadable? {
      return None, left;
    }
    var lines := Lines(file.text);
    for i := 0 to |lines|
      invariant ReadLines(lines[..i], env, isWord) == Some(left)
    {
      var line := lines[i];
      assert lines[..i + 1][..i] == lines[..i];
      if line == "" || StartsWith(line, "#") {
        continue;
      }
      if Trim(line) == "" {
        continue;
      }
      var parts := SplitOnce(line, "=");
      if parts.None? {
        MalformedStays(lines, i, env, isWord);
        return Some(map[]), left;
      }
      left := left[Trim(parts.value.0) := Expand(StripControls(Trim(parts.value.1)), left, isWord)];
    }
    assert lines[..|lines|] == lines;
    return Some(left), left;
  }

  lemma {:induction false} MalformedStays(lines: seq<string>, i: nat, env: Env, isWord: char -> bool)
    requires i < |lines| && ReadLines(lines[..i + 1], env, isWord) == None
    ensures ReadLines(lines, env, isWord) == None
    decreases |lines|
  {
    if i + 1 == |lines| {
      assert lines[..i + 1] == lines;
    } else {
      var init := lines[..|lines| - 1];
      assert init[..i + 1] == lines[..i + 1];
      MalformedStays(init, i, env, isWord);
    }
  }

  // ---- Writing ----

  /** An order in which a hash map may give its entries. */
  ghost predicate IsOrder(order: seq<string>, bag: Env) {
    && (forall i, j | 0 <= i < j < |order| :: order[i] != order[j])
    && (forall key :: key in order <==> key in bag)
  }

  function Written(bag: Env, order: seq<string>, separator: string): (lines: seq<string>)
    requires forall key <- order :: key in bag
    ensures |lines| == |order|
    ensures forall i | 0 <= i < |order| :: lines[i] == order[i] + separator + bag[order[i]]
  {
    seq(|order|, i requires 0 <= i < |order| => assert order[i] in order; order[i] + separator + bag[order[i]])
  }

  /** `write_config`: one line for each entry, in the map's own order. */
  method WriteConfig(bag: Env, order: seq<string>, separator: string) returns (content: string)
    requires IsOrder(order, bag)
    ensures content == Unlines(Written(bag, order, separator))
  {
    content := "";
    for i := 0 to |order|
      invariant content == Unlines(Written(bag, order, separator)[..i])
    {
      var line := order[i] + separator + bag[order[i]];
      var lines := Written(bag, order, separator);
      assert lines[..i + 1] == lines[..i] + [line];
      UnlinesAppend(lines[..i], [line]);
      assert Unlines([line]) == line + "\n";
      content := content + (line + "\n");
    }
    assert Written(bag, order, separator)[..|order|] == Written(bag, order, separator);
  }

  // ---- Reading back what was written ----

  /** A key that its line can carry. */
  predicate GoodKey(key: string) {
    Trimmed(key) && '=' !in key && '\n' !in key && !StartsWith(key, "#")
  }

  predicate GoodValue(value: string) {
    Trimmed(value) && forall c <- value :: Printable(c)
  }

  predicate GoodBag(bag: Env) {
    forall key <- bag :: GoodKey(key) && GoodValue(bag[key])
  }

  lemma {:induction false} PrintableStays(s: string)
    requires forall c <- s :: Printable(c)
    ensures StripControls(s) == s
  {
    if s != "" {
      assert s[0] in s;
      PrintableStays(s[1..]);
    }
  }

  lemma {:induction false} TrimKeepsInk(s: string, i: nat)
    requires i < |s| && !IsWhite(s[i])
    ensures Trim(s) != ""
  {
    TrimStartKeepsInk(s, i);
    var t := TrimStart(s);
    var j :| 0 <= j < |t| && !IsWhite(t[j]);
    TrimEndKeepsInk(t, j);
  }

  lemma {:induction false} TrimStartKeepsInk(s: string, i: nat)
    requires i < |s| && !IsWhite(s[i])
    ensures exists j | 0 <= j < |TrimStart(s)| :: !IsWhite(TrimStart(s)[j])
  {
    if IsWhite(s[0]) {
      TrimStartKeepsInk(s[1..], i - 1);
      assert TrimStart(s) == TrimStart(s[1..]);
    } else {
      assert !IsWhite(TrimStart(s)[i]);
    }
  }

  lemma {:induction false} TrimEndKeepsInk(s: string, i: nat)
    requires i < |s| && !IsWhite(s[i])
    ensures TrimEnd(s) != ""
  {
    if IsWhite(s[|s| - 1]) {
      TrimEndKeepsInk(s[..|s| - 1], i);
    }
  }

  /** A line written for a good key and value reads back as that key with the value expanded. */
  lemma {:induction false} LineReadsBack(env: Env, key: string, value: string, isWord: char -> bool)
    requires GoodKey(key) && GoodValue(value)
    ensures ReadLine(env, key + "=" + value, isWord) == Some(env[key := Expand(value, env, isWord)])
    ensures '\n' !in key + "=" + value && !EndsWith(key + "=" + value, "\r")
  {
    hide Expand, Find, TrimStart, TrimEnd;
    var line := key + "=" + value;
    FindAfter(key, "=", value);
    TrimIsTrimmed(key);
    TrimIsTrimmed(value);
    PrintableStays(value);
    assert line[|key|] == '=';
    TrimKeepsInk(line, |key|);
    assert line[0] == if key == "" then '=' else key[0];
    assert line[|line| - 1] == if value == "" then '=' else value[|value| - 1];
    assert value != "" ==> value[|value| - 1] in value;
  }

  ghost function Names(order: seq<string>): set<string> { set key | key in order }

  /** The entries of `bag` named by `keys`. */
  ghost function Part(bag: Env, keys: set<string>): Env {
    map key | key in keys && key in bag :: bag[key]
  }

  /** What has been read after the first `n` lines. */
  ghost function ReadBack(bag: Env, order: seq<string>, n: nat, isWord: char -> bool): Env
    requires n <= |order| && forall key <- order :: key in bag
  {
    if n == 0 then map[]
    else
      var earlier := ReadBack(bag, order, n - 1, isWord);
      assert order[n - 1] in order;
      earlier[order[n - 1] := Expand(bag[order[n - 1]], earlier, isWord)]
  }

  lemma {:induction false} LinesReadBack(bag: Env, order: seq<string>, n: nat, isWord: char -> bool)
    requires GoodBag(bag) && n <= |order| && forall key <- order :: key in bag
    ensures ReadLines(Written(bag, order, "=")[..n], map[], isWord) == Some(ReadBack(bag, order, n, isWord))
    ensures forall line <- Written(bag, order, "=")[..n] :: '\n' !in line && !EndsWith(line, "\r")
  {
    hide ReadLine, Expand, EndsWith;
    if n > 0 {
      var lines := Written(bag, order, "=");
      LinesReadBack(bag, order, n - 1, isWord);
      assert lines[..n][..n - 1] == lines[..n - 1];
      assert order[n - 1] in order;
      LineReadsBack(ReadBack(bag, order, n - 1, isWord), order[n - 1], bag[order[n - 1]], isWord);
      forall line | line in lines[..n]
        ensures '\n' !in line && !EndsWith(line, "\r")
      {
        var i :| 0 <= i < n && lines[i] == line;
        assert i < n - 1 ==> line in lines[..n - 1];
      }
    }
  }

  /** The whole file read back. */
  lemma {:induction false} FileReadsBack(bag: Env, order: seq<string>, isWord: char -> bool)
    requires GoodBag(bag) && forall key <- order :: key in bag
    ensures ReadLines(Lines(Unlines(Written(bag, order, "="))), map[], isWord)
         == Some(ReadBack(bag, order, |order|, isWord))
  {
    var lines := Written(bag, order, "=");
    LinesReadBack(bag, order, |order|, isWord);
    assert lines[..|order|] == lines;
    LinesUnlines(lines);
  }

  /** Every value stays as it is when expanded over any of the other entries. */
  ghost predicate Steady(bag: Env, isWord: char -> bool) {
    forall key, others: set<string> | key in bag && others <= bag.Keys - {key} ::
      Expand(bag[key], Part(bag, others), isWord) == bag[key]
  }

  ghost predicate RoundTrips(bag: Env, order: seq<string>, isWord: char -> bool)
    requires forall key <- order :: key in bag
  {
    ReadLines(Lines(Unlines(Written(bag, order, "="))), map[], isWord) == Some(bag)
  }

  lemma {:induction false} EarlierKeys(bag: Env, order: seq<string>, n: nat)
    requires IsOrder(order, bag) && 0 < n <= |order|
    ensures order[n - 1] in bag && Names(order[..n - 1]) <= bag.Keys - {order[n - 1]}
    ensures Names(order[..n]) == Names(order[..n - 1]) + {order[n - 1]}
  {
    assert order[n - 1] in order;
    forall other | other in Names(order[..n - 1])
      ensures other in bag && other != order[n - 1]
    {
      assert other in order;
    }
    assert order[..n] == order[..n - 1] + [order[n - 1]];
  }

  lemma {:induction false} PartGrows(bag: Env, keys: set<string>, key: string)
    requires key in bag
    ensures Part(bag, keys + {key}) == Part(bag, keys)[key := bag[key]]
  {
  }

  lemma {:induction false} NoNames(bag: Env, order: seq<string>)
    ensures Part(bag, Names(order[..0])) == map[]
  {
    assert order[..0] == [];
  }

  lemma {:induction false} SteadyReadsBack(bag: Env, order: seq<string>, n: nat, isWord: char -> bool)
    requires IsOrder(order, bag) && Steady(bag, isWord) && n <= |order|
    ensures ReadBack(bag, order, n, isWord) == Part(bag, Names(order[..n]))
  {
    hide Expand, Names, Part;
    if n > 0 {
      SteadyReadsBack(bag, order, n - 1, isWord);
      var key, others := order[n - 1], Names(order[..n - 1]);
      EarlierKeys(bag, order, n);
      assert Expand(bag[key], Part(bag, others), isWord) == bag[key];
      PartGrows(bag, others, key);
    } else {
      NoNames(bag, order);
    }
  }

  lemma {:induction false} ReadKeys(bag: Env, order: seq<string>, n: nat, isWord: char -> bool)
    requires n <= |order| && forall key <- order :: key in bag
    ensures ReadBack(bag, order, n, isWord).Keys == Names(order[..n])
  {
    if n > 0 {
      ReadKeys(bag, order, n - 1, isWord);
      assert order[..n] == order[..n - 1] + [order[n - 1]];
    }
  }

  /** An entry once read is not touched by the lines of other keys. */
  lemma {:induction false} ReadEntryStays(bag: Env, order: seq<string>, i: nat, n: nat, m: nat, isWord: char -> bool)
    requires IsOrder(order, bag) && i < n <= m <= |order|
    ensures var early, late := ReadBack(bag, order, n, isWord), ReadBack(bag, order, m, isWord);
            order[i] in early && order[i] in late && early[order[i]] == late[order[i]]
    decreases m
  {
    if n < m {
      ReadEntryStays(bag, order, i, n, m - 1, isWord);
      assert order[m - 1] != order[i];
    } else if i < n - 1 {
      ReadEntryStays(bag, order, i, n - 1, n - 1, isWord);
    }
  }

  /** Some order of a finite set of keys. */
  lemma {:induction false} Listing(keys: set<string>) returns (order: seq<string>)
    ensures forall i, j | 0 <= i < j < |order| :: order[i] != order[j]
    ensures forall key :: key in order <==> key in keys
    decreases keys
  {
    if keys == {} {
      order := [];
    } else {
      var key :| key in keys;
      var rest := Listing(keys - {key});
      order := rest + [key];
    }
  }

  lemma {:induction false} SteadyRoundTrips(bag: Env, order: seq<string>, isWord: char -> bool)
    requires GoodBag(bag) && IsOrder(order, bag) && Steady(bag, isWord)
    ensures RoundTrips(bag, order, isWord)
  {
    hide ReadLines, Lines, Unlines, Written, ReadBack, Expand, Names, Part, GoodBag, Steady;
    FileReadsBack(bag, order, isWord);
    SteadyReadsBack(bag, order, |order|, isWord);
    WholePart(bag, order);
  }

  lemma {:induction false} WholePart(bag: Env, order: seq<string>)
    requires IsOrder(order, bag)
    ensures Part(bag, Names(order[..|order|])) == bag
  {
    assert order[..|order|] == order;
    assert Names(order) == bag.Keys;
  }

  lemma {:induction false} RoundTripIsSteadyAt(
      bag: Env, before: seq<string>, key: string, after: seq<string>, isWord: char -> bool)
    requires GoodBag(bag) && IsOrder(before + [key] + after, bag)
    requires RoundTrips(bag, before + [key] + after, isWord)
    ensures key in bag && Expand(bag[key], Part(bag, Names(before)), isWord) == bag[key]
  {
    var order, n := before + [key] + after, |before|;
    FileReadsBack(bag, order, isWord);
    assert order[n] == key && order[n] in order;
    EarlyPart(bag, order, n, isWord);
    assert order[..n] == before;
    ReadEntryStays(bag, order, n, n + 1, |order|, isWord);
  }

  lemma {:induction false} EarlyPart(bag: Env, order: seq<string>, n: nat, isWord: char -> bool)
    requires IsOrder(order, bag) && n <= |order| && ReadBack(bag, order, |order|, isWord) == bag
    ensures ReadBack(bag, order, n, isWord) == Part(bag, Names(order[..n]))
  {
    var early := ReadBack(bag, order, n, isWord);
    ReadKeys(bag, order, n, isWord);
    forall key | key in early
      ensures key in bag && early[key] == bag[key]
    {
      var i :| 0 <= i < n && order[i] == key;
      ReadEntryStays(bag, order, i, n, |order|, isWord);
    }
  }

  /** Reading back gives the same map in every order if and only if the map is steady. */
  lemma {:induction false} RoundTripsIffSteady(bag: Env, isWord: char -> bool)
    requires GoodBag(bag)
    ensures (forall order | IsOrder(order, bag) :: RoundTrips(bag, order, isWord)) <==> Steady(bag, isWord)
  {
    if Steady(bag, isWord) {
      forall order | IsOrder(order, bag)
        ensures RoundTrips(bag, order, isWord)
      {
        SteadyRoundTrips(bag, order, isWord);
      }
    }
    if forall order | IsOrder(order, bag) :: RoundTrips(bag, order, isWord) {
      forall key, others: set<string> | key in bag && others <= bag.Keys - {key}
        ensures Expand(bag[key], Part(bag, others), isWord) == bag[key]
      {
        var before := Listing(others);
        var after := Listing(bag.Keys - others - {key});
        OrderOf(bag, before, key, after, others);
        assert Names(before) == others;
        RoundTripIsSteadyAt(bag, before, key, after, isWord);
      }
    }
  }

  /** Every reference in a value to another key of the map stands for its own text. */
  predicate OwnReferences(bag: Env, isWord: char -> bool) {
    forall key <- bag :: OwnTexts(bag[key], bag - {key}, isWord)
  }

  lemma {:induction false} SteadyIffOwnReferences(bag: Env, isWord: char -> bool)
    requires !isWord('$')
    ensures Steady(bag, isWord) <==> OwnReferences(bag, isWord)
  {
    if OwnReferences(bag, isWord) {
      forall key, others: set<string> | key in bag && others <= bag.Keys - {key}
        ensures Expand(bag[key], Part(bag, others), isWord) == bag[key]
      {
        OwnTextsStay(bag[key], bag - {key}, Part(bag, others), isWord);
      }
    }
    if Steady(bag, isWord) {
      hide Expand, OwnTexts;
      forall key | key in bag
        ensures OwnTexts(bag[key], bag - {key}, isWord)
      {
        forall name | name in bag - {key}
          ensures OwnTexts(bag[key], map[name := (bag - {key})[name]], isWord)
        {
          assert Expand(bag[key], Part(bag, {name}), isWord) == bag[key];
          assert Part(bag, {name}) == map[name := bag[name]];
          StaysIffOwnTexts(bag[key], name, bag[name], isWord);
        }
        OwnTextsByName(bag[key], bag - {key}, isWord);
      }
    }
  }

  /**
   For a map whose keys and values its lines can carry, reading back what was
   written gives the same map in every order the map may be emitted in, if and
   only if each reference in a value to another key of the map has that key's
   value equal to the reference's own text.
   */
  lemma {:induction false} RoundTripsInEveryOrderIff(bag: Env, isWord: char -> bool)
    requires GoodBag(bag) && !isWord('$')
    ensures (forall order | IsOrder(order, bag) :: RoundTrips(bag, order, isWord)) <==> OwnReferences(bag, isWord)
  {
    RoundTripsIffSteady(bag, isWord);
    SteadyIffOwnReferences(bag, isWord);
  }

  lemma {:induction false} OrderOf(bag: Env, before: seq<string>, key: string, after: seq<string>, others: set<string>)
    requires key in bag && others <= bag.Keys - {key}
    requires forall i, j | 0 <= i < j < |before| :: before[i] != before[j]
    requires forall i, j | 0 <= i < j < |after| :: after[i] != after[j]
    requires forall k :: k in before <==> k in others
    requires forall k :: k in after <==> k in bag.Keys - others - {key}
    ensures IsOrder(before + [key] + after, bag)
  {
    var order := before + [key] + after;
    forall i, j | 0 <= i < j < |order|
      ensures order[i] != order[j]
    {
      assert i < |before| ==> order[i] in before;
      assert j < |before| ==> order[j] in before;
      assert i > |before| ==> order[i] in after;
      assert j > |before| ==> order[j] in after;
    }
  }

  /** A map in which no value refers to another key of the map survives the round trip in every order. */
  lemma {:induction false} RoundTripWithoutReferences(bag: Env, order: seq<string>, isWord: char -> bool)
    requires GoodBag(bag) && IsOrder(order, bag)
    requires forall key <- bag :: References(bag[key], isWord) !! bag.Keys - {key}
    ensures RoundTrips(bag, order, isWord)
  {
    forall key, others: set<string> | key in bag && others <= bag.Keys - {key}
      ensures Expand(bag[key], Part(bag, others), isWord) == bag[key]
    {
      UnknownNamesStay(bag[key], Part(bag, others), isWord);
    }
    assert Steady(bag, isWord);
    RoundTripsIffSteady(bag, isWord);
  }

  /** A value that is a reference to the key written before it reads back as that key's value. */
  lemma {:induction false} AReferenceIsExpandedOnTheWayBack(name: string, value: string, other: string, isWord: char -> bool)
    requires GoodKey(name) && GoodKey(other) && name != other && GoodValue(value) && GoodValue("$" + name)
    requires name != "" && (forall c <- name :: isWord(c)) && '$' !in value
    ensures var bag := map[name := value, other := "$" + name];
            && ReadLines(Lines(Unlines(Written(bag, [name, other], "="))), map[], isWord) ==
               Some(map[name := value, other := value])
            && !RoundTrips(bag, [name, other], isWord)
  {
    var bag, order := map[name := value, other := "$" + name], [name, other];
    FileReadsBack(bag, order, isWord);
    PlainTextStays(value, "", map[], isWord);
    var first := map[name := value];
    WordIsExpanded(name, "", first, isWord);
    assert Expand("", map[], isWord) == "" && Expand("", first, isWord) == "";
    assert value + "" == value && "$" + name + "" == "$" + name;
    hide Expand, Lines, Unlines, Written, ReadLines;
    assert ReadBack(bag, order, 1, isWord) == first;
    assert ReadBack(bag, order, 2, isWord) == first[other := value];
    assert bag[other][0] == '$';
  }

  /** Such keys and values exist: `B=$A` after `A=x`. */
  lemma {:induction false} SuchAReferenceExists()
    ensures GoodKey("A") && GoodKey("B") && GoodValue("x") && GoodValue("$" + "A")
  {
    assert "$" + "A" == "$A";
    GoodText("x");
    GoodText("$A");
  }

  lemma {:induction false} GoodText(value: string)
    requires forall c <- value :: '!' <= c <= '~'
    ensures GoodValue(value)
  {
    assert value != "" ==> value[0] in value && value[|value| - 1] in value;
  }
}
