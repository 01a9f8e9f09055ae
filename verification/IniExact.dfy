/** Exactly which documents survive printing and parsing: the well-formed ones. Every line
    that sets a key adds at most one pair of section and key, and the printed text has one
    line for each pair; so a document that comes back whole has no line to spare. */
module IniExact {
  import opened Options
  import opened Ini

  // ----- pairs and the lines that set them -----

  function Pairs(d: Doc): set<(string, string)> {
    set n <- d.sections, k <- d.sections[n].values :: (n, k)
  }

  predicate IsEntry(line: string) {
    Classify(Trim(line)).KeyValue?
  }

  /** The number of lines that set a key, if each is read as a line of its own. */
  function Settings(text: string): nat
    decreases |text|
  {
    if text == [] then 0 else (if IsEntry(FirstLine(text)) then 1 else 0) + Settings(OtherLines(text))
  }

  lemma SettingsStep(line: string, rest: string)
    requires '\n' !in line
    ensures Settings(line + "\n" + rest) == (if IsEntry(line) then 1 else 0) + Settings(rest)
  {
    hide IsEntry, FirstLine, OtherLines;
    LineSplit(line, rest);
  }

  lemma {:induction false} ContinuedSettings(value: string, rest: string)
    ensures Settings(Continued(value, rest).1) <= Settings(rest)
    decreases |rest|
  {
    hide IsEntry, FirstLine, OtherLines, Trim;
    if Continues(value, rest) {
      ContinuedSettings(value[..|value| - 1] + Trim(FirstLine(rest)), OtherLines(rest));
    }
  }

  /** A value that goes on over an entry uses it up. */
  lemma SwallowCosts(value: string, rest: string)
    requires Continues(value, rest) && IsEntry(FirstLine(rest))
    ensures Settings(Continued(value, rest).1) < Settings(rest)
  {
    hide IsEntry, FirstLine, OtherLines, Trim;
    ContinuedSettings(value[..|value| - 1] + Trim(FirstLine(rest)), OtherLines(rest));
  }

  lemma InPairs(d: Doc, p: (string, string))
    ensures p in Pairs(d) <==> d.Get(p.0, p.1).Some?
  {
  }

  lemma PutPairs(d: Doc, name: string, key: string, value: string)
    ensures Pairs(Put(d, name, key, value)) == Pairs(d) + {(name, key)}
    ensures |Pairs(Put(d, name, key, value))| == |Pairs(d)| + if (name, key) in Pairs(d) then 0 else 1
  {
    hide Pairs, Doc.Get;
    var r := Put(d, name, key, value);
    forall p: (string, string)
      ensures p in Pairs(r) <==> p in Pairs(d) + {(name, key)}
    {
      InPairs(r, p);
      InPairs(d, p);
    }
    if (name, key) in Pairs(d) {
      assert Pairs(d) + {(name, key)} == Pairs(d);
    }
  }

  lemma OpenPairs(d: Doc, name: string)
    ensures Pairs(Open(d, name)) == Pairs(d)
  {
  }

  /** Parsing adds at most one pair for each line that sets a key. */
  lemma {:induction false} Growth(text: string, d: Doc, current: string)
    ensures |Pairs(ParseFrom(text, d, current))| <= |Pairs(d)| + Settings(text)
    decreases |text|
  {
    hide Classify, Open, Put, Pairs, FirstLine, OtherLines, Trim;
    if text != [] {
      var rest := OtherLines(text);
      match Classify(Trim(FirstLine(text)))
      case Skipped =>
        Growth(rest, d, current);
      case Header(name) =>
        OpenPairs(d, name);
        Growth(rest, Open(d, name), name);
      case KeyValue(key, value) =>
        var r := Continued(value, rest);
        PutPairs(d, current, key, r.0);
        ContinuedSettings(value, rest);
        Growth(r.1, Put(d, current, key, r.0), current);
    }
  }

  /** Every line that can add a pair does. */
  ghost predicate Tight(text: string, d: Doc, current: string) {
    |Pairs(ParseFrom(text, d, current))| >= |Pairs(d)| + Settings(text)
  }

  /** What a line that sets a key must then do: it adds a new pair and uses up no other
      line that sets one. */
  lemma TightEntry(key: string, value: string, rest: string, d: Doc, current: string)
    requires var r := Continued(value, rest);
      |Pairs(ParseFrom(r.1, Put(d, current, key, r.0), current))| >= |Pairs(d)| + 1 + Settings(rest)
    ensures var r := Continued(value, rest);
      && (current, key) !in Pairs(d) && Settings(r.1) == Settings(rest)
      && Tight(r.1, Put(d, current, key, r.0), current)
  {
    hide Put, Pairs, ParseFrom, Continued;
    var r := Continued(value, rest);
    PutPairs(d, current, key, r.0);
    ContinuedSettings(value, rest);
    Growth(r.1, Put(d, current, key, r.0), current);
  }

  /** Then nothing that was set is set again. */
  lemma {:induction false} TightKeeps(text: string, d: Doc, current: string, n: string, k: string)
    requires |Pairs(ParseFrom(text, d, current))| >= |Pairs(d)| + Settings(text) && (n, k) in Pairs(d)
    ensures ParseFrom(text, d, current).Get(n, k) == d.Get(n, k)
    decreases |text|
  {
    hide Classify, Open, Put, Pairs, FirstLine, OtherLines, Trim, Continued;
    if text != [] {
      var rest := OtherLines(text);
      match Classify(Trim(FirstLine(text)))
      case Skipped =>
        TightKeeps(rest, d, current, n, k);
      case Header(name) =>
        OpenPairs(d, name);
        OpenGets(d, name, n, k);
        TightKeeps(rest, Open(d, name), name, n, k);
      case KeyValue(key, value) =>
        var r := Continued(value, rest);
        TightEntry(key, value, rest, d, current);
        PutPairs(d, current, key, r.0);
        TightKeeps(r.1, Put(d, current, key, r.0), current, n, k);
    }
  }

  lemma OpenGets(d: Doc, name: string, n: string, k: string)
    ensures Open(d, name).Get(n, k) == d.Get(n, k)
  {
  }

  // ----- the lines of a printed document -----

  ghost predicate AreEntries(keys: seq<string>, values: map<string, string>) {
    forall i :: 0 <= i < |keys| ==> keys[i] in values && IsEntry(keys[i] + "=" + values[keys[i]])
  }

  ghost predicate Shaped(keys: seq<string>, values: map<string, string>) {
    forall i :: 0 <= i < |keys| ==> keys[i] in values && KeyShape(keys[i], values[keys[i]])
  }

  lemma {:induction false} SettingsOfLines(keys: seq<string>, values: map<string, string>, rest: string)
    requires Shaped(keys, values)
    ensures Settings(Lines(keys, values) + rest) <= |keys| + Settings(rest)
    ensures Settings(Lines(keys, values) + rest) == |keys| + Settings(rest) ==> AreEntries(keys, values)
    decreases |keys|
  {
    hide IsEntry, Settings, Lines, KeyShape;
    LinesSplit(keys, values, rest);
    if keys != [] {
      var k := keys[0];
      var line, more := k + "=" + values[k], Lines(keys[1..], values) + rest;
      assert KeyShape(k, values[k]);
      KeyShapeMeans(k, values[k]);
      SettingsStep(line, more);
      SettingsOfLines(keys[1..], values, rest);
      assert forall i :: 0 < i < |keys| ==> keys[i] == keys[1..][i - 1];
    }
  }

  lemma KeyShapeMeans(k: string, v: string)
    requires KeyShape(k, v)
    ensures '\n' !in k + "=" + v
  {
  }

  lemma SettingsOfHeader(name: string, rest: string)
    requires NameOk(name)
    ensures Settings("[" + name + "]\n" + rest) == Settings(rest)
  {
    hide Classify, Trim, Settings;
    HeaderLine(name);
    SettingsStep("[" + name + "]", rest);
    assert "[" + name + "]\n" + rest == "[" + name + "]" + "\n" + rest;
  }

  lemma SettingsOfBlank(rest: string)
    ensures Settings("\n" + rest) == Settings(rest)
  {
    hide Settings;
    SettingsStep("", rest);
    assert "" + "\n" + rest == "\n" + rest;
  }

  function Count(d: Doc, order: seq<string>): nat {
    if order == [] then 0
    else (if IsPrinted(d, order[0]) then |d.sections[order[0]].keys| else 0) + Count(d, order[1..])
  }

  ghost predicate SectionShape(d: Doc, name: string) {
    IsPrinted(d, name) ==> NameOk(name) && Shaped(d.sections[name].keys, d.sections[name].values)
  }

  ghost predicate SectionEntries(d: Doc, name: string) {
    IsPrinted(d, name) ==> AreEntries(d.sections[name].keys, d.sections[name].values)
  }

  ghost predicate AllShaped(d: Doc, order: seq<string>) {
    forall n :: n in order ==> SectionShape(d, n)
  }

  ghost predicate AllEntries(d: Doc, order: seq<string>) {
    forall n :: n in order ==> SectionEntries(d, n)
  }

  lemma SettingsOfSection(name: string, s: Section, rest: string)
    requires SectionOk(s) && NameOk(name) && Shaped(s.keys, s.values)
    ensures Settings(SectionText(name, s) + rest) <= |s.keys| + Settings(rest)
    ensures Settings(SectionText(name, s) + rest) == |s.keys| + Settings(rest) ==> AreEntries(s.keys, s.values)
  {
    hide Settings, NameOk, Shaped, AreEntries, Lines, Ascending;
    SettingsOfLines(s.keys, s.values, rest);
    var lines := Lines(s.keys, s.values);
    if name == "" {
      assert SectionText(name, s) + rest == lines + rest;
    } else {
      assert SectionText(name, s) + rest == "[" + name + "]\n" + (lines + rest);
      SettingsOfHeader(name, lines + rest);
    }
  }

  lemma {:induction false} SettingsOfDump(d: Doc, order: seq<string>, first: bool)
    requires DocOk(d) && AllShaped(d, order)
    ensures Settings(DumpFrom(d, order, first)) <= Count(d, order)
    ensures Settings(DumpFrom(d, order, first)) == Count(d, order) ==> AllEntries(d, order)
    decreases |order|
  {
    hide Settings, SectionText, NameOk, Shaped, AreEntries, Ascending, DumpFrom;
    if order == [] {
      DumpEnds(d, first);
      assert Settings("") == 0 by { SettingsOfNothing(); }
    } else {
      var name, rest := order[0], order[1..];
      DumpFirst(d, order, first);
      assert SectionShape(d, name);
      assert forall n :: n in order <==> n == name || n in rest;
      if IsPrinted(d, name) {
        var more := DumpFrom(d, rest, false);
        var text := SectionText(name, d.sections[name]) + more;
        SettingsOfDump(d, rest, false);
        SettingsOfSection(name, d.sections[name], more);
        SettingsOfBlank(text);
        assert "" + text == text;
      } else {
        SettingsOfDump(d, rest, first);
      }
    }
  }

  lemma SettingsOfNothing()
    ensures Settings("") == 0
  {
  }

  // ----- counting the pairs of a document -----

  function PairsOf(d: Doc, order: seq<string>): set<(string, string)> {
    set p <- Pairs(d) | p.0 in order
  }

  function Under(name: string, keys: seq<string>): set<(string, string)> {
    set k <- keys :: (name, k)
  }

  lemma LessIsStrict(s: string)
    ensures !Less(s, s)
  {
    if s != [] {
      LessIsStrict(s[1..]);
    }
  }

  lemma {:induction false} UnderCount(name: string, keys: seq<string>)
    requires Ascending(keys)
    ensures |Under(name, keys)| == |keys|
    decreases |keys|
  {
    hide Less;
    if keys != [] {
      var rest := keys[1..];
      UnderCount(name, rest);
      if keys[0] in rest {
        LessIsStrict(keys[0]);
      }
      assert Under(name, keys) == Under(name, rest) + {(name, keys[0])};
    }
  }

  lemma {:induction false} PairsCount(d: Doc, order: seq<string>)
    requires DocOk(d) && Distinct(order)
    ensures |PairsOf(d, order)| == Count(d, order)
    decreases |order|
  {
    hide Ascending;
    if order != [] {
      var name, rest := order[0], order[1..];
      assert forall i :: 0 <= i < |rest| ==> rest[i] == order[i + 1];
      PairsCount(d, rest);
      assert name !in rest;
      if IsPrinted(d, name) {
        SectionIsOk(d, name);
        var here := Under(name, d.sections[name].keys);
        UnderCount(name, d.sections[name].keys);
        assert PairsOf(d, order) == PairsOf(d, rest) + here;
        assert PairsOf(d, rest) !! here;
      } else {
        assert name in d.sections ==> SectionOk(d.sections[name]);
        assert PairsOf(d, order) == PairsOf(d, rest);
      }
    }
  }

  // ----- how a printed line is read -----

  lemma TrimParts(v: string) returns (a: nat, b: nat)
    ensures a <= b <= |v| && Trim(v) == v[a..b]
    ensures forall i :: 0 <= i < a || b <= i < |v| ==> IsSpace(v[i])
    ensures a < b ==> !IsSpace(v[a]) && !IsSpace(v[b - 1])
  {
    hide IsSpace, TrimLeft, TrimRight;
    var l := TrimLeft(v);
    var r := TrimRight(l);
    a := |v| - |l|;
    b := a + |r|;
    assert v[a..] == l && r == l[..|r|] == v[a..b];
    forall i | b <= i < |v|
      ensures IsSpace(v[i])
    {
      assert IsSpace(l[i - a]);
    }
  }

  lemma TrimLine(k: string, v: string, c: nat)
    requires k != [] && Trimmed(k) && c <= |v| && (c > 0 ==> !IsSpace(v[c - 1]))
    requires forall i :: c <= i < |v| ==> IsSpace(v[i])
    ensures Trim(k + "=" + v) == k + "=" + v[..c]
  {
    hide Trim;
    var line := k + "=" + v;
    assert forall i :: |k| < i < |line| ==> line[i] == v[i - |k| - 1];
    TrimIsMiddle(line, 0, |k| + 1 + c);
    assert line[0..|k| + 1 + c] == k + "=" + v[..c];
  }

  lemma LineIsReadAs(k: string, v: string)
    requires KeyShape(k, v) && IsEntry(k + "=" + v)
    ensures Classify(Trim(k + "=" + v)) == KeyValue(k, Trim(v))
  {
    hide Trim, Find;
    var a, b := TrimParts(v);
    var c := if a < b then b else 0;
    var t := k + "=" + v[..c];
    TrimLine(k, v, c);
    FindIs(t, '=', |k|);
    assert t[..|k|] == k && t[|k| + 1..] == v[..c];
    TrimIsTrimmed(k);
    var start := if a < b then a else 0;
    TrimIsMiddle(v[..c], start, c);
    assert v[..c][start..c] == Trim(v);
  }

  lemma LastOfTrim(v: string)
    requires Trim(v) != []
    ensures |Trim(v)| <= |v| && (IsSpace(v[|v| - 1]) || v[|v| - 1] == Trim(v)[|Trim(v)| - 1])
  {
    hide Trim, IsSpace;
    var a, b := TrimParts(v);
  }

  predicate IsHeaderLine(line: string) {
    |line| >= 2 && line[0] == '[' && line[|line| - 1] == ']'
  }

  /** What can follow an entry in a printed document: nothing, an entry, or a blank line
      and then an entry or a header. */
  ghost predicate FollowsOk(more: string) {
    more != "" ==>
      || IsEntry(FirstLine(more))
      || (more[0] == '\n' && more[1..] != "" && (IsEntry(FirstLine(more[1..])) || IsHeaderLine(FirstLine(more[1..]))))
  }

  lemma BlankFirst(more: string)
    requires more != "" && more[0] == '\n'
    ensures FirstLine(more) == "" && OtherLines(more) == more[1..] && Trim("") == ""
  {
    LineSplit("", more[1..]);
    assert "" + "\n" + more[1..] == more;
  }

  lemma HeaderIsTrimmed(line: string)
    requires IsHeaderLine(line)
    ensures Trim(line) == line
  {
    hide Trim;
    TrimIsTrimmed(line);
  }

  /** A value that comes back as it was did not go on in the next line. */
  lemma NotSwallowed(v: string, more: string)
    requires FollowsOk(more) && Continued(Trim(v), more).0 == v
    requires Settings(Continued(Trim(v), more).1) == Settings(more)
    ensures !Continues(Trim(v), more)
  {
    hide Trim, Settings, IsEntry, FirstLine, OtherLines;
    var w := Trim(v);
    if Continues(w, more) {
      LastOfTrim(v);
      if IsEntry(FirstLine(more)) {
        SwallowCosts(w, more);
      } else {
        BlankFirst(more);
        var t := more[1..];
        BlankSettings(more);
        var w1 := w[..|w| - 1];
        assert w1 + "" == w1;
        if Continues(w1, t) {
          if IsEntry(FirstLine(t)) {
            SwallowCosts(w1, t);
          } else {
            HeaderIsTrimmed(FirstLine(t));
          }
        }
      }
    }
  }

  lemma BlankSettings(more: string)
    requires more != "" && more[0] == '\n'
    ensures Settings(more[1..]) == Settings(more)
  {
    hide Settings;
    SettingsOfBlank(more[1..]);
    assert "\n" + more[1..] == more;
  }

  // ----- a document that comes back is well formed -----

  lemma EntryMustBeOk(k: string, v: string, more: string, acc: Doc, n: string)
    requires KeyShape(k, v) && IsEntry(k + "=" + v) && FollowsOk(more)
    requires Tight(k + "=" + v + "\n" + more, acc, n)
    requires ParseFrom(k + "=" + v + "\n" + more, acc, n).Get(n, k) == Some(v)
    ensures EntryOk(k, v) && (EndsWith(v, '\\') ==> more == "")
    ensures (n, k) !in Pairs(acc) && Tight(more, Put(acc, n, k, v), n)
  {
    hide Classify, Trim, Settings, FollowsOk, Pairs, Put, EntryOk, ParseFrom, Continued;
    var line, w := k + "=" + v, Trim(v);
    var r := Continued(w, more);
    LineIsReadAs(k, v);
    ParseLine(line, more, acc, n);
    SettingsStep(line, more);
    assert ParseFrom(line + "\n" + more, acc, n) == ParseFrom(r.1, Put(acc, n, k, r.0), n);
    TightEntry(k, w, more, acc, n);
    PutPairs(acc, n, k, r.0);
    TightKeeps(r.1, Put(acc, n, k, r.0), n, n, k);
    NotSwallowed(v, more);
    ContinuedStops(w, more);
    EntryLine(k, v);
  }

  lemma ContinuedStops(value: string, rest: string)
    requires !Continues(value, rest)
    ensures Continued(value, rest) == (value, rest)
  {
  }

  ghost predicate Holds(d: Doc, n: string, keys: seq<string>, values: map<string, string>) {
    forall k :: k in keys ==> k in values && d.Get(n, k) == Some(values[k])
  }

  lemma {:induction false} LinesMustBeOk(keys: seq<string>, values: map<string, string>, rest: string, acc: Doc,
                                         n: string)
    requires Shaped(keys, values) && AreEntries(keys, values) && FollowsOk(rest)
    requires Tight(Lines(keys, values) + rest, acc, n)
    requires Holds(ParseFrom(Lines(keys, values) + rest, acc, n), n, keys, values)
    ensures EntriesOk(keys, values, rest == "")
    ensures ParseFrom(Lines(keys, values) + rest, acc, n) == ParseFrom(rest, PutAll(acc, n, keys, values), n)
    ensures Tight(rest, PutAll(acc, n, keys, values), n)
    ensures Pairs(PutAll(acc, n, keys, values)) == Pairs(acc) + Under(n, keys)
    decreases |keys|
  {
    hide KeyShape, EntryOk, EndsWith, IsEntry, FollowsOk, Tight, Pairs, Put, ParseFrom;
    hide Lines, EntriesOk, Under, Shaped, AreEntries;
    LinesSplit(keys, values, rest);
    if keys == [] {
      EntriesStep(keys, values, rest == "");
      UnderStep(n, keys);
    } else {
      var k, others := keys[0], keys[1..];
      var v, more := values[k], Lines(others, values) + rest;
      TailShaped(keys, values);
      LinesFollow(others, values, rest);
      EntryMustBeOk(k, v, more, acc, n);
      ParseEntry(k, v, more, acc, n);
      PutPairs(acc, n, k, v);
      assert Holds(ParseFrom(more, Put(acc, n, k, v), n), n, others, values);
      LinesMustBeOk(others, values, rest, Put(acc, n, k, v), n);
      UnderStep(n, keys);
      EntriesStep(keys, values, rest == "");
    }
  }

  lemma LinesSplit(keys: seq<string>, values: map<string, string>, rest: string)
    requires Shaped(keys, values)
    ensures keys == [] ==> Lines(keys, values) + rest == rest
    ensures keys != [] ==> keys[0] in values && (forall k :: k in keys[1..] ==> k in values)
    ensures keys != [] ==>
      Lines(keys, values) + rest == keys[0] + "=" + values[keys[0]] + "\n" + (Lines(keys[1..], values) + rest)
  {
    hide KeyShape;
    if keys == [] {
      assert "" + rest == rest;
    } else {
      var line, tail := keys[0] + "=" + values[keys[0]] + "\n", Lines(keys[1..], values);
      assert (line + tail) + rest == line + (tail + rest);
    }
  }

  lemma TailShaped(keys: seq<string>, values: map<string, string>)
    requires Shaped(keys, values) && AreEntries(keys, values) && keys != []
    ensures Shaped(keys[1..], values) && AreEntries(keys[1..], values)
    ensures keys[0] in values && KeyShape(keys[0], values[keys[0]]) && IsEntry(keys[0] + "=" + values[keys[0]])
  {
    hide KeyShape, IsEntry;
    assert forall i :: 0 <= i < |keys[1..]| ==> keys[1..][i] == keys[i + 1];
  }

  lemma UnderStep(name: string, keys: seq<string>)
    ensures keys == [] ==> Under(name, keys) == {}
    ensures keys != [] ==> Under(name, keys) == {(name, keys[0])} + Under(name, keys[1..])
  {
  }

  lemma EntriesStep(keys: seq<string>, values: map<string, string>, last: bool)
    requires keys != [] ==>
      && keys[0] in values && EntryOk(keys[0], values[keys[0]]) && EntriesOk(keys[1..], values, last)
      && (EndsWith(values[keys[0]], '\\') ==> last && keys[1..] == [])
    ensures EntriesOk(keys, values, last)
  {
    hide EntryOk, EndsWith;
    assert forall i :: 0 < i < |keys| ==> keys[i] == keys[1..][i - 1];
  }

  lemma {:induction false} PutAllHas(d: Doc, name: string, keys: seq<string>, values: map<string, string>)
    requires forall k :: k in keys ==> k in values
    requires name in d.sections
    ensures name in PutAll(d, name, keys, values).sections
    decreases |keys|
  {
    hide InsertKey;
    if keys != [] {
      PutAllHas(Put(d, name, keys[0], values[keys[0]]), name, keys[1..], values);
    }
  }

  lemma LinesFollow(keys: seq<string>, values: map<string, string>, rest: string)
    requires Shaped(keys, values) && AreEntries(keys, values) && FollowsOk(rest)
    ensures FollowsOk(Lines(keys, values) + rest)
    ensures Lines(keys, values) + rest == "" <==> keys == [] && rest == ""
  {
    hide IsEntry, FirstLine, OtherLines;
    if keys == [] {
      assert Lines(keys, values) + rest == rest;
    } else {
      var line, more := keys[0] + "=" + values[keys[0]], Lines(keys[1..], values) + rest;
      assert Lines(keys, values) + rest == line + "\n" + more;
      LineSplit(line, more);
    }
  }

  lemma {:induction false} DumpFollows(d: Doc, order: seq<string>)
    requires DocOk(d) && AllShaped(d, order) && AllEntries(d, order)
    ensures FollowsOk(DumpFrom(d, order, false))
    decreases |order|
  {
    hide IsEntry, FirstLine, OtherLines, SectionText, NameOk, Shaped, AreEntries, Ascending, DumpFrom, FollowsOk;
    if order == [] {
      DumpEnds(d, false);
      assert FollowsOk("") by { NothingFollows(); }
    } else {
      DumpFirst(d, order, false);
      DumpFollows(d, order[1..]);
      if IsPrinted(d, order[0]) {
        assert SectionShape(d, order[0]) && SectionEntries(d, order[0]);
        SectionFollows(order[0], d.sections[order[0]], DumpFrom(d, order[1..], false));
      }
    }
  }

  lemma NothingFollows()
    ensures FollowsOk("")
  {
  }

  lemma SectionFollows(name: string, s: Section, rest: string)
    requires SectionOk(s) && s.keys != [] && NameOk(name) && Shaped(s.keys, s.values) && AreEntries(s.keys, s.values)
    ensures FollowsOk("\n" + (SectionText(name, s) + rest))
  {
    hide IsEntry, FirstLine, OtherLines;
    var k := s.keys[0];
    var line := k + "=" + s.values[k];
    var more := Lines(s.keys[1..], s.values) + rest;
    var text := SectionText(name, s) + rest;
    assert ("\n" + text)[1..] == text;
    if name == "" {
      assert text == line + "\n" + more;
      LineSplit(line, more);
    } else {
      assert text == "[" + name + "]" + "\n" + (Lines(s.keys, s.values) + rest);
      LineSplit("[" + name + "]", Lines(s.keys, s.values) + rest);
    }
  }

  ghost predicate Same(d: Doc, e: Doc) {
    forall n, k :: d.Get(n, k) == e.Get(n, k)
  }

  /** All of the current section has been read. */
  ghost predicate Done(d: Doc, acc: Doc, name: string) {
    && name in acc.sections
    && (name != "" ==> name in d.sections && forall k :: k in d.sections[name].values ==> (name, k) in Pairs(acc))
  }

  /** An unnamed section behind another one would be read into that one. */
  lemma UnnamedIsFirst(d: Doc, rest: string, acc: Doc, current: string)
    requires DocOk(d) && IsPrinted(d, "") && SectionShape(d, "") && SectionEntries(d, "") && Done(d, acc, current)
    requires var text := SectionText("", d.sections[""]) + rest;
      Tight(text, acc, current) && Same(ParseFrom(text, acc, current), d)
    ensures current == ""
  {
    hide Classify, Trim, Settings, Pairs, Put, ParseFrom, Continued, Ascending;
    var s := d.sections[""];
    var k := s.keys[0];
    var line, w, more := k + "=" + s.values[k], Trim(s.values[k]), Lines(s.keys[1..], s.values) + rest;
    var text := SectionText("", s) + rest;
    assert text == line + "\n" + more;
    var r := Continued(w, more);
    LineIsReadAs(k, s.values[k]);
    ParseLine(line, more, acc, current);
    SettingsStep(line, more);
    TightEntry(k, w, more, acc, current);
    PutPairs(acc, current, k, r.0);
    TightKeeps(r.1, Put(acc, current, k, r.0), current, current, k);
    assert d.Get(current, k).Some?;
  }

  lemma SectionMustBeOk(d: Doc, name: string, rest: string, acc: Doc, current: string)
    requires DocOk(d) && IsPrinted(d, name) && SectionShape(d, name) && SectionEntries(d, name) && FollowsOk(rest)
    requires Done(d, acc, current)
    requires var text := SectionText(name, d.sections[name]) + rest;
      Tight(text, acc, current) && Same(ParseFrom(text, acc, current), d)
    ensures name == "" ==> current == ""
    ensures var s := d.sections[name]; var next := PutAll(Open(acc, name), name, s.keys, s.values);
      && PrintedOk(d, name, rest == "") && Tight(rest, next, name) && Done(d, next, name)
      && ParseFrom(SectionText(name, s) + rest, acc, current) == ParseFrom(rest, next, name)
  {
    hide Ascending, Shaped, AreEntries, EntriesOk, NameOk, FollowsOk, ParseFrom, Lines, PutAll, Settings, Pairs;
    var s := d.sections[name];
    var lines := Lines(s.keys, s.values);
    var o := Open(acc, name);
    OpenPairs(acc, name);
    if name == "" {
      assert SectionText(name, s) + rest == lines + rest;
      UnnamedIsFirst(d, rest, acc, current);
    } else {
      assert SectionText(name, s) + rest == "[" + name + "]\n" + (lines + rest);
      SettingsOfHeader(name, lines + rest);
      ParseHeader(name, lines + rest, acc, current);
    }
    var final := ParseFrom(lines + rest, o, name);
    forall k | k in s.keys
      ensures k in s.values && final.Get(name, k) == Some(s.values[k])
    {
      assert d.Get(name, k) == Some(s.values[k]);
    }
    LinesMustBeOk(s.keys, s.values, rest, o, name);
    PutAllHas(o, name, s.keys, s.values);
    assert forall k :: k in s.values ==> (name, k) in Under(name, s.keys);
  }

  // ----- all sections -----

  lemma OrderParts(d: Doc, order: seq<string>)
    requires order != [] && Distinct(order) && AllShaped(d, order) && AllEntries(d, order)
    ensures Distinct(order[1..]) && AllShaped(d, order[1..]) && AllEntries(d, order[1..])
    ensures SectionShape(d, order[0]) && SectionEntries(d, order[0]) && order[0] !in order[1..]
  {
    hide SectionShape, SectionEntries;
    assert forall i :: 0 <= i < |order[1..]| ==> order[1..][i] == order[i + 1];
  }

  lemma OrderWhole(d: Doc, order: seq<string>)
    requires order != [] && SectionsOk(d, order[1..]) && UnnamedFirst(d, order[1..])
    requires PrintedOk(d, order[0], NothingPrinted(d, order[1..]))
    requires IsPrinted(d, order[0]) ==> !("" in order[1..] && IsPrinted(d, ""))
    ensures SectionsOk(d, order) && UnnamedFirst(d, order)
  {
    hide PrintedOk, NothingPrinted, IsPrinted;
    var rest := order[1..];
    assert forall i :: 0 < i < |order| ==> order[i] == rest[i - 1] && order[i + 1..] == rest[i..];
    forall i | 0 <= i < |order|
      ensures PrintedOk(d, order[i], NothingPrinted(d, order[i + 1..]))
    {
      if i > 0 {
        assert PrintedOk(d, rest[i - 1], NothingPrinted(d, rest[i - 1 + 1..]));
      }
    }
    forall i, j | 0 <= i < j < |order| && order[j] == ""
      ensures !(IsPrinted(d, order[i]) && IsPrinted(d, ""))
    {
      assert "" in rest && rest[j - 1] == "";
      if i > 0 {
        assert order[i] == rest[i - 1];
      }
    }
  }

  /** One section further. */
  lemma NextSection(d: Doc, order: seq<string>, acc: Doc, current: string, first: bool) returns (next: Doc)
    requires DocOk(d) && order != [] && IsPrinted(d, order[0])
    requires Distinct(order) && AllShaped(d, order) && AllEntries(d, order) && Done(d, acc, current)
    requires Tight(DumpFrom(d, order, first), acc, current)
    requires Same(ParseFrom(DumpFrom(d, order, first), acc, current), d)
    ensures PrintedOk(d, order[0], NothingPrinted(d, order[1..])) && (order[0] == "" ==> current == "")
    ensures Done(d, next, order[0]) && Tight(DumpFrom(d, order[1..], false), next, order[0])
    ensures Same(ParseFrom(DumpFrom(d, order[1..], false), next, order[0]), d)
  {
    hide Done, Same, ParseFrom, DumpFrom, SectionText, SectionShape, SectionEntries, PutAll, PrintedOk, Settings, Pairs;
    hide NothingPrinted, FollowsOk, Ascending, AllShaped, AllEntries, Distinct;
    var name, rest := order[0], order[1..];
    var s, more := d.sections[name], DumpFrom(d, rest, false);
    OrderParts(d, order);
    DumpFirst(d, order, first);
    var text := SectionText(name, s) + more;
    if first {
      assert "" + text == text;
    } else {
      ParseBlank(text, acc, current);
      SettingsOfBlank(text);
    }
    DumpFollows(d, rest);
    SectionMustBeOk(d, name, more, acc, current);
    DumpNothing(d, rest, false);
    next := PutAll(Open(acc, name), name, s.keys, s.values);
  }

  lemma {:induction false} SectionsMustBeOk(d: Doc, order: seq<string>, acc: Doc, current: string, first: bool)
    requires DocOk(d) && Distinct(order) && AllShaped(d, order) && AllEntries(d, order) && Done(d, acc, current)
    requires Tight(DumpFrom(d, order, first), acc, current)
    requires Same(ParseFrom(DumpFrom(d, order, first), acc, current), d)
    ensures SectionsOk(d, order) && UnnamedFirst(d, order)
    ensures current != "" ==> !("" in order && IsPrinted(d, ""))
    decreases |order|
  {
    hide Tight, Done, Same, ParseFrom, DumpFrom, IsPrinted, SectionShape, SectionEntries, PrintedOk;
    hide NothingPrinted, DocOk;
    if order != [] {
      var name, rest := order[0], order[1..];
      OrderParts(d, order);
      assert "" in order <==> name == "" || "" in rest;
      if IsPrinted(d, name) {
        var next := NextSection(d, order, acc, current, first);
        SectionsMustBeOk(d, rest, next, name, false);
      } else {
        DumpFirst(d, order, first);
        UnprintedIsOk(d, name, NothingPrinted(d, rest));
        SectionsMustBeOk(d, rest, acc, current, first);
      }
      OrderWhole(d, order);
    }
  }

  lemma UnprintedIsOk(d: Doc, name: string, last: bool)
    requires !IsPrinted(d, name)
    ensures PrintedOk(d, name, last)
  {
  }

  // ----- the theorem -----

  /** What parsing gives can only have well-formed names and keys. */
  lemma SameIsShaped(d: Doc, text: string)
    requires DocOk(d) && Same(Parsed(text), d)
    ensures AllShaped(d, d.order)
  {
    hide KeyShape, NameOk, ParseFrom, Ascending;
    UnnamedShape();
    ParseKeepsShape(text, UNNAMED, "");
    forall n | IsPrinted(d, n)
      ensures SectionShape(d, n)
    {
      SectionIsOk(d, n);
      var s := d.sections[n];
      forall k | k in s.keys
        ensures k in s.values && NameOk(n) && KeyShape(k, s.values[k])
      {
        assert Parsed(text).Get(n, k) == d.Get(n, k) == Some(s.values[k]);
      }
      assert s.keys[0] in s.keys;
    }
  }

  lemma SamePairs(d: Doc, e: Doc)
    requires Same(d, e)
    ensures Pairs(d) == Pairs(e)
  {
    hide Pairs, Doc.Get;
    forall p: (string, string)
      ensures p in Pairs(d) <==> p in Pairs(e)
    {
      InPairs(d, p);
      InPairs(e, p);
    }
  }

  lemma AllPairsCount(d: Doc)
    requires DocOk(d)
    ensures |Pairs(d)| == Count(d, d.order)
  {
    hide SectionOk;
    PairsCount(d, d.order);
    assert PairsOf(d, d.order) == Pairs(d);
  }

  /** A document that comes back whole has no line to spare. */
  lemma SameIsTight(d: Doc)
    requires DocOk(d) && Same(Parsed(Dumped(d)), d)
    ensures AllShaped(d, d.order) && AllEntries(d, d.order) && Tight(Dumped(d), UNNAMED, "")
  {
    hide ParseFrom, DumpFrom, AllShaped, AllEntries, Pairs, Settings, Count, DocOk;
    SameIsShaped(d, Dumped(d));
    SamePairs(Parsed(Dumped(d)), d);
    AllPairsCount(d);
    SettingsOfDump(d, d.order, true);
    Growth(Dumped(d), UNNAMED, "");
    assert Pairs(UNNAMED) == {} by { UnnamedIsEmpty(); }
  }

  lemma UnnamedIsEmpty()
    ensures Pairs(UNNAMED) == {}
  {
  }

  /** Exactly the well-formed documents survive: printing and reading changes no lookup
      if and only if the document is well formed. */
  lemma RoundTripExactly(d: Doc)
    requires DocOk(d)
    ensures Same(Parsed(Dumped(d)), d) <==> WellFormed(d)
  {
    hide ParseFrom, DumpFrom, AllShaped, AllEntries, Tight, SectionOk, SectionsOk, UnnamedFirst, Doc.Get;
    if WellFormed(d) {
      forall n, k
        ensures Parsed(Dumped(d)).Get(n, k) == d.Get(n, k)
      {
        RoundTrip(d, n, k);
      }
    }
    if Same(Parsed(Dumped(d)), d) {
      SameIsTight(d);
      assert Done(d, UNNAMED, "");
      SectionsMustBeOk(d, d.order, UNNAMED, "", true);
    }
  }

  /** Not every document that was loaded survives: a continued value can end in a space. */
  lemma LoadedMayChange()
    ensures var d := Parsed("k=a \\\n\n");
      DocOk(d) && d.Get("", "k") == Some("a ") && !Same(Parsed(Dumped(d)), d)
  {
    hide ParseFrom, DumpFrom, Classify;
    var d := Put(UNNAMED, "", "k", "a ");
    assert Parsed("k=a \\\n\n") == d by {
      ContinuedSpace();
    }
    UnnamedIsOk();
    PutKeepsOk(UNNAMED, "", "k", "a ");
    RoundTripExactly(d);
    assert d.sections[""].keys == ["k"] && d.order[0] == "";
    if WellFormed(d) {
      PrintedIsOk(d, 0, 0);
    }
  }

  lemma PrintedIsOk(d: Doc, i: nat, j: nat)
    requires WellFormed(d) && i < |d.order| && IsPrinted(d, d.order[i])
    requires j < |d.sections[d.order[i]].keys|
    ensures var s := d.sections[d.order[i]]; s.keys[j] in s.values && EntryOk(s.keys[j], s.values[s.keys[j]])
  {
    hide EntryOk, NothingPrinted, DocOk, UnnamedFirst;
    assert PrintedOk(d, d.order[i], NothingPrinted(d, d.order[i + 1..]));
  }

  lemma ContinuedByBlank(value: string)
    requires |value| >= 2 && value[|value| - 1] == '\\' && value[|value| - 2] != '\\'
    ensures Continued(value, "\n") == (value[..|value| - 1], "")
  {
    hide Trim, FirstLine, OtherLines;
    BlankFirst("\n");
    var before := value[..|value| - 1];
    assert before + "" == before;
    ContinuedStops(before, "");
  }

  lemma ContinuedSpace()
    ensures Parsed("k=a \\\n\n") == Put(UNNAMED, "", "k", "a ")
  {
    hide Classify, Put, Trim, Continued, ParseFrom;
    var line, value := "k=a \\", "a \\";
    assert line == "k" + "=" + value && "k=a \\\n\n" == line + "\n" + "\n";
    EntryLine("k", value);
    ParseLine(line, "\n", UNNAMED, "");
    ContinuedByBlank(value);
    assert value[..2] == "a ";
    ParseNothing(Put(UNNAMED, "", "k", "a "), "");
  }
}
