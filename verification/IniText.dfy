/** How a file may be written: white space, line ends, comments and continued values. */
module IniText {
  import opened Options
  import opened Ini

  // ----- white space -----

  predicate IsBlank(c: char) { c == ' ' || c == '\t' || c == '\r' }

  predicate Blank(w: string) {
    forall i :: 0 <= i < |w| ==> IsBlank(w[i])
  }

  /** Text that does not begin or end with white space. */
  predicate Solid(s: string) {
    s != "" ==> !IsBlank(s[0]) && s[0] != '\n' && !IsBlank(s[|s| - 1]) && s[|s| - 1] != '\n'
  }

  lemma SolidIsTrimmed(s: string)
    ensures Solid(s) <==> Trimmed(s)
  {
  }

  /** Blanks, tabs and carriage returns around a text do not count. */
  lemma TrimmedOff(w: string, s: string, w': string)
    requires Blank(w) && Blank(w') && Solid(s)
    ensures Trim(w + s + w') == s
  {
    hide Trim;
    var t := w + s + w';
    if s == "" {
      assert forall i :: 0 <= i < |t| ==> IsSpace(t[i]);
      TrimIsMiddle(t, 0, 0);
    } else {
      assert t[|w|] == s[0] && t[|w| + |s| - 1] == s[|s| - 1];
      TrimIsMiddle(t, |w|, |w| + |s|);
      assert t[|w|..|w| + |s|] == s;
    }
  }

  /** Two texts that differ in blanks behind them are the same line. */
  lemma {:induction false} TrimRightOff(s: string, w: string)
    requires Blank(w)
    ensures TrimRight(s + w) == TrimRight(s)
    decreases |w|
  {
    if w == "" {
      assert s + w == s;
    } else {
      var t := s + w;
      assert t[|t| - 1] == w[|w| - 1] && t[..|t| - 1] == s + w[..|w| - 1];
      TrimRightOff(s, w[..|w| - 1]);
    }
  }

  // ----- entries and headers -----

  /** An entry may have blanks anywhere around its key and its value. */
  lemma SpacedEntry(w1: string, key: string, w2: string, w3: string, value: string, w4: string, rest: string,
                    d: Doc, current: string)
    requires Blank(w1) && Blank(w2) && Blank(w3) && Blank(w4)
    requires EntryOk(key, value) && (rest == "" || !EndsWith(value, '\\'))
    ensures var line := w1 + key + w2 + "=" + w3 + value + w4;
      ParseFrom(line + "\n" + rest, d, current) == ParseFrom(rest, Put(d, current, key, value), current)
  {
    hide Trim, Find, Classify, Put, FirstLine, OtherLines, ParseFrom;
    var line := w1 + key + w2 + "=" + w3 + value + w4;
    SpacedLine(w1, key, w2, w3, value, w4);
    ParseLine(line, rest, d, current);
  }

  lemma SpacedLine(w1: string, key: string, w2: string, w3: string, value: string, w4: string)
    requires Blank(w1) && Blank(w2) && Blank(w3) && Blank(w4) && EntryOk(key, value)
    ensures var line := w1 + key + w2 + "=" + w3 + value + w4;
      '\n' !in line && Classify(Trim(line)) == KeyValue(key, value)
  {
    hide Trim, Find, Classify;
    var tail := if value == "" then "" else w3 + value;
    var t := key + w2 + "=" + tail;
    var behind := if value == "" then w3 + w4 else w4;
    assert w1 + key + w2 + "=" + w3 + value + w4 == w1 + t + behind;
    assert t[0] == key[0] && t[|t| - 1] == if value == "" then '=' else value[|value| - 1];
    SolidIsTrimmed(key);
    SolidIsTrimmed(value);
    TrimmedOff(w1, t, behind);
    SpacedParts(key, w2, if value == "" then "" else w3, value);
    assert tail == (if value == "" then "" else w3) + value;
  }

  lemma SpacedParts(key: string, w2: string, w3: string, value: string)
    requires Blank(w2) && Blank(w3) && EntryOk(key, value) && (value == "" ==> w3 == "")
    ensures Classify(key + w2 + "=" + (w3 + value)) == KeyValue(key, value)
  {
    hide Trim, Find;
    var tail := w3 + value;
    var t := key + w2 + "=" + tail;
    SolidIsTrimmed(key);
    SolidIsTrimmed(value);
    assert t[0] == key[0] && t[|t| - 1] == if value == "" then '=' else value[|value| - 1];
    assert t[..|key| + |w2|] == "" + key + w2 && t[|key| + |w2| + 1..] == tail == w3 + value + "";
    assert '=' !in key && '=' !in w2 && '=' !in key + w2;
    FindIs(t, '=', |key| + |w2|);
    TrimmedOff("", key, w2);
    TrimmedOff(w3, value, "");
  }

  /** So may a header around its brackets and its name. */
  lemma SpacedHeader(w1: string, w2: string, name: string, w3: string, w4: string, rest: string,
                     d: Doc, current: string)
    requires Blank(w1) && Blank(w2) && Blank(w3) && Blank(w4) && NameOk(name)
    ensures var line := w1 + "[" + w2 + name + w3 + "]" + w4;
      ParseFrom(line + "\n" + rest, d, current) == ParseFrom(rest, Open(d, name), name)
  {
    hide Trim, Find, Put, FirstLine, OtherLines, ParseFrom;
    var line := w1 + "[" + w2 + name + w3 + "]" + w4;
    var t := "[" + w2 + name + w3 + "]";
    assert line == w1 + t + w4 && t[|t| - 1] == ']';
    SolidIsTrimmed(name);
    TrimmedOff(w1, t, w4);
    assert t[1..|t| - 1] == w2 + name + w3;
    TrimmedOff(w2, name, w3);
    ParseLine(line, rest, d, current);
  }

  // ----- lines that say nothing -----

  /** Blank lines, comments with # or ;, and lines without = or without a key are skipped. */
  lemma IgnoredLine(w: string, text: string, w': string, rest: string, d: Doc, current: string)
    requires Blank(w) && Blank(w') && Solid(text) && '\n' !in text
    requires
      || text == "" || text[0] == '#' || text[0] == ';' || text[0] == '='
      || ('=' !in text && !(text[0] == '[' && text[|text| - 1] == ']'))
    ensures ParseFrom(w + text + w' + "\n" + rest, d, current) == ParseFrom(rest, d, current)
  {
    hide Trim, Put, FirstLine, OtherLines, ParseFrom, Find;
    TrimmedOff(w, text, w');
    ParseLine(w + text + w', rest, d, current);
    if text != "" && text[0] == '=' {
      FindIs(text, '=', 0);
      TrimmedOff("", "", "");
      assert text[..0] == "" + "" + "";
    } else if '=' !in text {
      assert text[..|text|] == text;
      FindIs(text, '=', |text|);
    }
  }

  // ----- continued values -----

  /** A backslash at the end of a value is replaced by the next line, blanks trimmed. */
  lemma ContinuedValue(key: string, v1: string, w: string, v2: string, w': string, rest: string,
                       d: Doc, current: string)
    requires EntryOk(key, v1 + "\\") && Blank(w) && Blank(w') && Solid(v2) && '\n' !in v2
    requires !EndsWith(v1 + v2, '\\')
    ensures ParseFrom(key + "=" + v1 + "\\\n" + w + v2 + w' + "\n" + rest, d, current)
      == ParseFrom(rest, Put(d, current, key, v1 + v2), current)
  {
    hide Trim, Put, FirstLine, OtherLines, ParseFrom, Classify;
    var value, next := v1 + "\\", w + v2 + w';
    var more := next + "\n" + rest;
    assert key + "=" + v1 + "\\\n" + w + v2 + w' + "\n" + rest == key + "=" + value + "\n" + more;
    EntryLine(key, value);
    ParseLine(key + "=" + value, more, d, current);
    LineSplit(next, rest);
    TrimmedOff(w, v2, w');
    assert value[..|value| - 1] == v1;
    assert !Continues(v1 + v2, rest);
    assert Continued(value, more) == (v1 + v2, rest);
  }

  /** The last line needs no line end. */
  lemma LastLine(key: string, value: string, d: Doc, current: string)
    requires EntryOk(key, value)
    ensures ParseFrom(key + "=" + value, d, current) == Put(d, current, key, value)
  {
    hide Trim, Put, Classify, Find;
    var text := key + "=" + value;
    EntryLine(key, value);
    FindIs(text, '\n', |text|);
    assert text[..|text|] == text;
  }

  // ----- line ends -----

  /** The text with CR LF for every LF. */
  function WithCr(text: string): string {
    if text == "" then "" else (if text[0] == '\n' then "\r\n" else [text[0]]) + WithCr(text[1..])
  }

  lemma {:induction false} WithCrBehind(line: string, more: string)
    requires '\n' !in line
    ensures WithCr(line + more) == line + WithCr(more)
    decreases |line|
  {
    if line == "" {
      assert "" + more == more && "" + WithCr(more) == WithCr(more);
    } else {
      var t := line[1..];
      assert (line + more)[0] == line[0] && (line + more)[1..] == t + more;
      WithCrBehind(t, more);
      assert [line[0]] + (t + WithCr(more)) == line + WithCr(more);
    }
  }

  lemma WithCrLine(line: string, rest: string)
    requires '\n' !in line
    ensures WithCr(line + "\n" + rest) == line + "\r" + "\n" + WithCr(rest)
    ensures WithCr(line) == line
  {
    hide WithCr;
    WithCrBehind(line, "\n" + rest);
    WithCrBehind(line, "");
    WithCrEnds(rest);
    assert line + "\n" + rest == line + ("\n" + rest);
    assert line + "\r" + "\n" + WithCr(rest) == line + ("\r\n" + WithCr(rest));
    assert line + "" == line;
  }

  lemma WithCrEnds(rest: string)
    ensures WithCr("\n" + rest) == "\r\n" + WithCr(rest) && WithCr("") == ""
  {
    assert ("\n" + rest)[1..] == rest;
  }

  lemma TextParts(text: string)
    ensures '\n' !in FirstLine(text)
    ensures '\n' in text ==> text == FirstLine(text) + "\n" + OtherLines(text)
    ensures '\n' !in text ==> text == FirstLine(text) && OtherLines(text) == ""
  {
  }

  /** How the lines of a text change with its line ends. */
  lemma WithCrParts(text: string)
    ensures WithCr(text) == "" <==> text == ""
    ensures OtherLines(WithCr(text)) == WithCr(OtherLines(text))
    ensures Trim(FirstLine(WithCr(text))) == Trim(FirstLine(text))
  {
    hide Trim, FirstLine, OtherLines;
    TextParts(text);
    var line, rest := FirstLine(text), OtherLines(text);
    WithCrLine(line, rest);
    if '\n' in text {
      LineSplit(line + "\r", WithCr(rest));
      TrimCr(line);
    }
  }

  lemma TrimCr(line: string)
    ensures Trim(line + "\r") == Trim(line)
  {
    hide TrimLeft, TrimRight;
    var l := TrimLeft(line);
    if l == "" {
      assert line[|line| - 0..] == "";
      TrimLeftIs(line + "\r", |line| + 1);
      assert (line + "\r")[|line| + 1..] == "";
    } else {
      var a := |line| - |l|;
      TrimLeftIs(line + "\r", a);
      assert (line + "\r")[a..] == l + "\r";
      TrimRightOff(l, "\r");
    }
  }

  lemma {:induction false} ContinuedWithCr(value: string, rest: string)
    ensures Continued(value, WithCr(rest)) == (Continued(value, rest).0, WithCr(Continued(value, rest).1))
    decreases |rest|
  {
    hide Trim, FirstLine, OtherLines, WithCr;
    WithCrParts(rest);
    if Continues(value, rest) {
      ContinuedWithCr(value[..|value| - 1] + Trim(FirstLine(rest)), OtherLines(rest));
    }
  }

  /** A text means the same with either line end. */
  lemma {:induction false} LineEndsDoNotMatter(text: string, d: Doc, current: string)
    ensures ParseFrom(WithCr(text), d, current) == ParseFrom(text, d, current)
    decreases |text|
  {
    hide Trim, FirstLine, OtherLines, WithCr, Classify, Open, Put, Continued;
    WithCrParts(text);
    if text != "" {
      var rest := OtherLines(text);
      match Classify(Trim(FirstLine(text)))
      case Skipped =>
        LineEndsDoNotMatter(rest, d, current);
      case Header(name) =>
        LineEndsDoNotMatter(rest, Open(d, name), name);
      case KeyValue(key, value) =>
        var r := Continued(value, rest);
        ContinuedWithCr(value, rest);
        LineEndsDoNotMatter(r.1, Put(d, current, key, r.0), current);
    }
  }

  // ----- what is printed -----

  /** The order of keys: a proper beginning comes first, otherwise the first character in
      which they differ decides. */
  lemma {:induction false} LessExactly(s: string, t: string, n: nat)
    requires n <= |s| && n <= |t| && s[..n] == t[..n] && (n < |s| && n < |t| ==> s[n] != t[n])
    ensures Less(s, t) <==> n < |t| && (n == |s| || s[n] < t[n])
  {
    if n > 0 {
      assert s[0] == s[..n][0] == t[..n][0] == t[0];
      assert s[1..][..n - 1] == s[..n][1..] == t[..n][1..] == t[1..][..n - 1];
      LessExactly(s[1..], t[1..], n - 1);
    }
  }

  /** A new section comes last, and one that is there stays where it is. */
  lemma PutOrder(d: Doc, name: string, key: string, value: string)
    ensures Put(d, name, key, value).order == if name in d.sections then d.order else d.order + [name]
  {
  }

  lemma TwoLines(k1: string, k2: string, values: map<string, string>)
    requires k1 in values && k2 in values
    ensures Lines([k1], values) == k1 + "=" + values[k1] + "\n"
    ensures Lines([k1, k2], values) == k1 + "=" + values[k1] + "\n" + (k2 + "=" + values[k2] + "\n")
  {
    assert [k1][1..] == [] && [k1, k2][1..] == [k2] && [k2][1..] == [];
    assert k1 + "=" + values[k1] + "\n" + "" == k1 + "=" + values[k1] + "\n";
    assert k2 + "=" + values[k2] + "\n" + "" == k2 + "=" + values[k2] + "\n";
  }

  /** A document with two keys in a named section, the second set first. */
  lemma TwoKeys(d: Doc, name: string, a: string, b: string, v: string, w: string)
    requires DocOk(d) && name !in d.sections && Less(a, b) && a != b
    ensures var r := Put(Put(d, name, b, w), name, a, v);
      && DocOk(r) && r.order == d.order + [name] && r.sections == d.sections[name := r.sections[name]]
      && r.sections[name] == Section([a, b], map[b := w, a := v])
  {
    hide DocOk, Less;
    PutKeepsOk(d, name, b, w);
    PutKeepsOk(Put(d, name, b, w), name, a, v);
    assert InsertKey([], b) == [b];
    assert InsertKey([b], a) == [a] + [b];
  }

  /** How sections are printed: the unnamed one without a header, a header and the keys in
      order for others, and a blank line before each but the first. */
  lemma PrintedText(name: string, a: string, b: string, u: string, v: string, w: string)
    requires name != "" && Less(a, b) && a != b
    ensures var d := Put(Put(Put(UNNAMED, "", a, u), name, b, w), name, a, v);
      DocOk(d) && Dumped(d) ==
        a + "=" + u + "\n" + ("\n" + ("[" + name + "]\n" + (a + "=" + v + "\n" + (b + "=" + w + "\n"))))
  {
    hide DocOk, Less, SectionText, DumpFrom, Put;
    UnnamedIsOk();
    PutKeepsOk(UNNAMED, "", a, u);
    FirstKey(a, u);
    var first := Put(UNNAMED, "", a, u);
    TwoKeys(first, name, a, b, v, w);
    var d := Put(Put(first, name, b, w), name, a, v);
    assert d.order == ["", name] && d.order[1..] == [name] && [name][1..] == [];
    DumpFirst(d, d.order, true);
    DumpFirst(d, [name], false);
    DumpEnds(d, false);
    HeadedLines("", d.sections[""]);
    HeadedLines(name, d.sections[name]);
    TwoLines(a, b, d.sections[name].values);
    TwoLines(a, a, d.sections[""].values);
    PrintedParts(a + "=" + u + "\n", "[" + name + "]\n" + (a + "=" + v + "\n" + (b + "=" + w + "\n")));
  }

  lemma PrintedParts(first: string, second: string)
    ensures "" + (("" + first) + ("\n" + (second + ""))) == first + ("\n" + second)
  {
    assert "" + first == first && second + "" == second;
  }

  lemma FirstKey(a: string, u: string)
    ensures var d := Put(UNNAMED, "", a, u);
      d.order == [""] && d.sections == map["" := Section([a], map[a := u])]
  {
    assert InsertKey([], a) == [a];
    assert UNNAMED.sections[""].values[a := u] == map[a := u];
  }
}
