/** INI documents: a line-based parser and the printer that goes with it. */
module Ini {
  import opened Options

  // ----- characters and lines -----

  predicate IsSpace(c: char) { c == ' ' || c == '\t' || c == '\r' || c == '\n' }

  /** The position of the first c, or the length. */
  function Find(s: string, c: char): (i: nat)
    ensures i <= |s| && c !in s[..i] && (i < |s| ==> s[i] == c)
  {
    if s == [] || s[0] == c then 0
    else
      var i := 1 + Find(s[1..], c);
      assert s[..i] == [s[0]] + s[1..][..i - 1];
      i
  }

  function TrimLeft(s: string): (r: string)
    ensures |r| <= |s| && r == s[|s| - |r|..] && (r != [] ==> !IsSpace(r[0]))
    ensures forall i :: 0 <= i < |s| - |r| ==> IsSpace(s[i])
  {
    if s != [] && IsSpace(s[0]) then TrimLeft(s[1..]) else s
  }

  function TrimRight(s: string): (r: string)
    ensures |r| <= |s| && r == s[..|r|] && (r != [] ==> !IsSpace(r[|r| - 1]))
    ensures forall i :: |r| <= i < |s| ==> IsSpace(s[i])
  {
    if s != [] && IsSpace(s[|s| - 1]) then TrimRight(s[..|s| - 1]) else s
  }

  function Trim(s: string): string {
    TrimRight(TrimLeft(s))
  }

  predicate Trimmed(s: string) {
    s == [] || (!IsSpace(s[0]) && !IsSpace(s[|s| - 1]))
  }

  /** Trimming does nothing exactly to what neither starts nor ends with white space. */
  lemma TrimIsTrimmed(s: string)
    ensures Trimmed(Trim(s))
    ensures Trim(s) == s <==> Trimmed(s)
    ensures forall c :: c in Trim(s) ==> c in s
  {
    var l := TrimLeft(s);
    var r := TrimRight(l);
    assert r != [] ==> r[0] == l[0];
    if Trimmed(s) {
      assert s != [] ==> |l| == |s|;
      assert l == s[0..] == s;
      assert l != [] ==> |r| == |l|;
      assert r == l[..|l|] == l;
    }
  }

  lemma {:induction false} TrimLeftIs(s: string, a: nat)
    requires a <= |s| && (forall i :: 0 <= i < a ==> IsSpace(s[i])) && (a < |s| ==> !IsSpace(s[a]))
    ensures TrimLeft(s) == s[a..]
  {
    if a > 0 {
      TrimLeftIs(s[1..], a - 1);
    }
  }

  lemma {:induction false} TrimRightIs(s: string, b: nat)
    requires b <= |s| && (forall i :: b <= i < |s| ==> IsSpace(s[i])) && (b > 0 ==> !IsSpace(s[b - 1]))
    ensures TrimRight(s) == s[..b]
    decreases |s|
  {
    if b < |s| {
      TrimRightIs(s[..|s| - 1], b);
      assert s[..|s| - 1][..b] == s[..b];
    }
  }

  lemma TrimIsMiddle(s: string, a: nat, b: nat)
    requires a <= b <= |s| && (forall i :: 0 <= i < a || b <= i < |s| ==> IsSpace(s[i]))
    requires a < b ==> !IsSpace(s[a]) && !IsSpace(s[b - 1])
    ensures Trim(s) == s[a..b]
  {
    hide TrimLeft, TrimRight, IsSpace;
    if a < b {
      TrimLeftIs(s, a);
      TrimRightIs(s[a..], b - a);
      assert s[a..][..b - a] == s[a..b];
    } else {
      TrimLeftIs(s, |s|);
      TrimRightIs([], 0);
    }
  }

  method TrimText(s: string) returns (r: string)
    ensures r == Trim(s)
  {
    hide TrimLeft, TrimRight, Trim, IsSpace;
    var a, b := 0, |s|;
    while a < b && IsSpace(s[a])
      invariant 0 <= a <= b == |s| && forall i :: 0 <= i < a ==> IsSpace(s[i])
    {
      a := a + 1;
    }
    while b > a && IsSpace(s[b - 1])
      invariant a <= b <= |s| && (forall i :: b <= i < |s| ==> IsSpace(s[i]))
    {
      b := b - 1;
    }
    TrimIsMiddle(s, a, b);
    r := s[a..b];
  }

  function FirstLine(text: string): string {
    text[..Find(text, '\n')]
  }

  /** What follows the first line. */
  function OtherLines(text: string): (r: string)
    ensures text != [] ==> |r| < |text|
  {
    var i := Find(text, '\n');
    if i < |text| then text[i + 1..] else []
  }

  lemma LineSplit(line: string, rest: string)
    requires '\n' !in line
    ensures FirstLine(line + "\n" + rest) == line && OtherLines(line + "\n" + rest) == rest
  {
    var text := line + "\n" + rest;
    assert text[..|line|] == line && text[|line| + 1..] == rest;
    FindIs(text, '\n', |line|);
  }

  lemma LineAt(text: string, pos: nat, nl: nat)
    requires pos < |text| && nl == pos + Find(text[pos..], '\n')
    ensures pos <= nl <= |text| && FirstLine(text[pos..]) == text[pos..nl]
    ensures OtherLines(text[pos..]) == text[if nl < |text| then nl + 1 else nl..]
  {
    hide Find;
    var here := text[pos..];
    assert here[..nl - pos] == text[pos..nl];
    assert nl < |text| ==> here[nl - pos + 1..] == text[nl + 1..];
  }

  // ----- documents -----

  /** An ordered map from keys to values. */
  datatype Section = Section(keys: seq<string>, values: map<string, string>)

  datatype Doc = Doc(sections: map<string, Section>, order: seq<string>) {
    function Get(section: string, key: string): Option<string> {
      if section in sections && key in sections[section].values then Some(sections[section].values[key]) else None
    }
  }

  const EMPTY_SECTION := Section([], map[])

  /** The order of keys: by the first character in which they differ. */
  predicate Less(s: string, t: string) {
    t != [] && (s == [] || s[0] < t[0] || (s[0] == t[0] && Less(s[1..], t[1..])))
  }

  lemma {:induction false} LessIsTotal(s: string, t: string)
    ensures Less(s, t) || s == t || Less(t, s)
    ensures !(Less(s, t) && Less(t, s)) && !Less(s, s)
  {
    if s != [] {
      LessIsTotal(s[1..], s[1..]);
      if t != [] {
        LessIsTotal(s[1..], t[1..]);
        assert s == [s[0]] + s[1..] && t == [t[0]] + t[1..];
      }
    }
  }

  lemma {:induction false} LessIsTransitive(s: string, t: string, u: string)
    requires Less(s, t) && Less(t, u)
    ensures Less(s, u)
  {
    if s != [] && s[0] == t[0] == u[0] {
      LessIsTransitive(s[1..], t[1..], u[1..]);
    }
  }

  ghost predicate Ascending(keys: seq<string>) {
    forall i, j :: 0 <= i < j < |keys| ==> Less(keys[i], keys[j])
  }

  function InsertKey(keys: seq<string>, k: string): seq<string> {
    if keys == [] || Less(k, keys[0]) then [k] + keys
    else if k == keys[0] then keys
    else [keys[0]] + InsertKey(keys[1..], k)
  }

  lemma {:induction false} InsertKeeps(keys: seq<string>, k: string)
    requires Ascending(keys)
    ensures Ascending(InsertKey(keys, k))
    ensures forall x :: x in InsertKey(keys, k) <==> x in keys || x == k
  {
    hide Less;
    if keys == [] {
      assert InsertKey(keys, k) == [k];
    } else if Less(k, keys[0]) {
      forall i | 0 < i < |keys| ensures Less(k, keys[i]) {
        LessIsTransitive(k, keys[0], keys[i]);
      }
    } else if k != keys[0] {
      var rest := InsertKey(keys[1..], k);
      LessIsTotal(k, keys[0]);
      InsertKeeps(keys[1..], k);
      forall x | x in rest ensures Less(keys[0], x) {
        if x != k {
          var i :| 0 <= i < |keys[1..]| && keys[1..][i] == x;
          assert Less(keys[0], keys[i + 1]);
        }
      }
      assert forall x :: x in keys <==> x == keys[0] || x in keys[1..];
    }
  }

  /** A key above all others goes to the end. */
  lemma {:induction false} InsertAtEnd(keys: seq<string>, k: string)
    requires forall i :: 0 <= i < |keys| ==> Less(keys[i], k)
    ensures InsertKey(keys, k) == keys + [k]
  {
    hide Less;
    if keys != [] {
      LessIsTotal(k, keys[0]);
      assert Less(keys[0], k);
      InsertAtEnd(keys[1..], k);
    }
  }

  ghost predicate SectionOk(s: Section) {
    Ascending(s.keys) && forall k :: k in s.keys <==> k in s.values
  }

  ghost predicate DocOk(d: Doc) {
    && (forall n :: n in d.order <==> n in d.sections)
    && (forall i, j :: 0 <= i < j < |d.order| ==> d.order[i] != d.order[j])
    && (forall n :: n in d.sections ==> SectionOk(d.sections[n]))
  }

  function Open(d: Doc, name: string): Doc {
    if name in d.sections then d else Doc(d.sections[name := EMPTY_SECTION], d.order + [name])
  }

  function PutIn(s: Section, key: string, value: string): Section {
    Section(InsertKey(s.keys, key), s.values[key := value])
  }

  /** The effect of `set`. */
  function Put(d: Doc, name: string, key: string, value: string): (r: Doc)
    ensures forall s, k :: r.Get(s, k) == if s == name && k == key then Some(value) else d.Get(s, k)
  {
    var o := Open(d, name);
    o.(sections := o.sections[name := PutIn(o.sections[name], key, value)])
  }

  lemma OpenKeepsOk(d: Doc, name: string)
    requires DocOk(d)
    ensures DocOk(Open(d, name)) && name in Open(d, name).sections
  {
    assert Ascending([]);
  }

  lemma PutKeepsOk(d: Doc, name: string, key: string, value: string)
    requires DocOk(d)
    ensures DocOk(Put(d, name, key, value))
  {
    hide Ascending, InsertKey;
    OpenKeepsOk(d, name);
    InsertKeeps(Open(d, name).sections[name].keys, key);
  }

  // ----- parsing -----

  datatype Line = Skipped | Header(name: string) | KeyValue(key: string, value: string)

  /** What a trimmed line says. */
  function Classify(t: string): Line {
    if t == [] || t[0] == '#' || t[0] == ';' then Skipped
    else if t[0] == '[' && t[|t| - 1] == ']' then Header(Trim(t[1..|t| - 1]))
    else
      var eq := Find(t, '=');
      if eq == |t| || Trim(t[..eq]) == [] then Skipped else KeyValue(Trim(t[..eq]), Trim(t[eq + 1..]))
  }

  predicate Continues(value: string, rest: string) {
    value != [] && value[|value| - 1] == '\\' && rest != []
  }

  /** A value that ends in a backslash goes on in the next line. */
  function Continued(value: string, rest: string): (r: (string, string))
    ensures |r.1| <= |rest|
    decreases |rest|
  {
    if Continues(value, rest) then Continued(value[..|value| - 1] + Trim(FirstLine(rest)), OtherLines(rest))
    else (value, rest)
  }

  /** The effect of the lines of a text on a document and the current section. */
  function ParseFrom(text: string, d: Doc, current: string): Doc
    decreases |text|, 0
  {
    if text == [] then d else ParseAs(Classify(Trim(FirstLine(text))), OtherLines(text), d, current)
  }

  function ParseAs(line: Line, rest: string, d: Doc, current: string): Doc
    decreases |rest|, 1
  {
    match line
    case Skipped => ParseFrom(rest, d, current)
    case Header(name) => ParseFrom(rest, Open(d, name), name)
    case KeyValue(key, value) =>
      var r := Continued(value, rest);
      ParseFrom(r.1, Put(d, current, key, r.0), current)
  }

  const UNNAMED := Doc(map["" := EMPTY_SECTION], [""])

  function Parsed(text: string): Doc {
    ParseFrom(text, UNNAMED, "")
  }

  // ----- printing -----

  function Lines(keys: seq<string>, values: map<string, string>): string
    requires forall k :: k in keys ==> k in values
  {
    if keys == [] then "" else keys[0] + "=" + values[keys[0]] + "\n" + Lines(keys[1..], values)
  }

  function SectionText(name: string, s: Section): string
    requires forall k :: k in s.keys ==> k in s.values
  {
    (if name == "" then "" else "[" + name + "]\n") + Lines(s.keys, s.values)
  }

  function DumpFrom(d: Doc, order: seq<string>, first: bool): string
    requires DocOk(d)
  {
    if order == [] then ""
    else if order[0] !in d.sections || d.sections[order[0]].keys == [] then DumpFrom(d, order[1..], first)
    else (if first then "" else "\n") + SectionText(order[0], d.sections[order[0]]) + DumpFrom(d, order[1..], false)
  }

  function Dumped(d: Doc): string
    requires DocOk(d)
  {
    DumpFrom(d, d.order, true)
  }

  lemma DumpStep(d: Doc, i: nat, first: bool)
    requires DocOk(d) && i < |d.order|
    ensures var name := d.order[i];
      DumpFrom(d, d.order[i..], first) ==
      if name in d.sections && d.sections[name].keys != [] then
        (if first then "" else "\n") + SectionText(name, d.sections[name]) + DumpFrom(d, d.order[i + 1..], false)
      else DumpFrom(d, d.order[i + 1..], first)
  {
    hide SectionText;
    assert d.order[i..][1..] == d.order[i + 1..];
  }

  lemma DumpEnds(d: Doc, first: bool)
    requires DocOk(d)
    ensures DumpFrom(d, [], first) == ""
  {
  }

  lemma SectionIsOk(d: Doc, name: string)
    requires DocOk(d) && name in d.sections
    ensures SectionOk(d.sections[name])
  {
  }

  lemma HeadedLines(name: string, s: Section)
    requires SectionOk(s)
    ensures SectionText(name, s) == (if name == "" then "" else "[" + name + "]\n") + Lines(s.keys, s.values)
  {
  }

  // ----- the document -----

  class Document {
    var doc: Doc

    ghost predicate Valid()
      reads this
    {
      DocOk(doc)
    }

    constructor ()
      ensures Valid() && doc == Doc(map[], [])
    {
      doc := Doc(map[], []);
    }

    method FindFrom(text: string, pos: nat) returns (nl: nat)
      requires pos <= |text|
      ensures nl == pos + Find(text[pos..], '\n')
    {
      nl := pos;
      while nl < |text| && text[nl] != '\n'
        invariant pos <= nl <= |text| && '\n' !in text[pos..nl]
      {
        assert text[pos..nl + 1] == text[pos..nl] + [text[nl]];
        nl := nl + 1;
      }
      FindIs(text[pos..], '\n', nl - pos);
      assert text[pos..][..nl - pos] == text[pos..nl];
    }

    /** Reads the line at pos. */
    method ReadLine(text: string, pos: nat) returns (t: string, next: nat)
      requires pos < |text|
      ensures pos < next <= |text| && t == Trim(FirstLine(text[pos..])) && text[next..] == OtherLines(text[pos..])
    {
      hide Find, Trim, FirstLine, OtherLines;
      var nl := FindFrom(text, pos);
      LineAt(text, pos, nl);
      t := TrimText(text[pos..nl]);
      next := if nl < |text| then nl + 1 else |text|;
    }

    method Parse(text: string) returns (ok: bool)
      modifies this
      ensures ok && doc == Parsed(text) && Valid()
    {
      hide Classify, Open, Put, Find, Trim, FirstLine, OtherLines;
      doc := UNNAMED;
      UnnamedIsOk();
      var current, pos := "", 0;
      assert text[0..] == text;
      while pos < |text|
        invariant pos <= |text| && Valid()
        invariant ParseFrom(text[pos..], doc, current) == Parsed(text)
      {
        var t;
        ghost var here := text[pos..];
        t, pos := ReadLine(text, pos);
        match Classify(t) {
          case Skipped =>
          case Header(name) =>
            current := name;
            OpenKeepsOk(doc, name);
            doc := Open(doc, name);
          case KeyValue(key, value) =>
            var v := value;
            while v != [] && v[|v| - 1] == '\\' && pos < |text|
              modifies {}
              invariant pos <= |text| && Continued(v, text[pos..]) == Continued(value, OtherLines(here))
              decreases |text| - pos
            {
              var next;
              ghost var rest := text[pos..];
              next, pos := ReadLine(text, pos);
              v := v[..|v| - 1] + next;
            }
            PutKeepsOk(doc, current, key, v);
            doc := Put(doc, current, key, v);
        }
      }
      assert text[pos..] == [];
      return true;
    }

    /** The entries of a section in ascending order of their keys. */
    method DumpSection(s: Section) returns (text: string)
      requires SectionOk(s)
      ensures text == Lines(s.keys, s.values)
    {
      text := "";
      for j := 0 to |s.keys|
        invariant text + Lines(s.keys[j..], s.values) == Lines(s.keys, s.values)
      {
        var k := s.keys[j];
        assert s.keys[j..][1..] == s.keys[j + 1..];
        text := text + (k + "=" + s.values[k] + "\n");
      }
    }

    /** The sections in the order in which they came. */
    method Dump() returns (text: string)
      requires Valid()
      ensures text == Dumped(doc)
    {
      hide Lines, DocOk, SectionText, DumpFrom;
      text := "";
      var first := true;
      assert doc.order[0..] == doc.order;
      for i := 0 to |doc.order|
        invariant text + DumpFrom(doc, doc.order[i..], first) == Dumped(doc)
      {
        var name := doc.order[i];
        DumpStep(doc, i, first);
        if name in doc.sections && doc.sections[name].keys != [] {
          SectionIsOk(doc, name);
          var more := if first then "" else "\n";
          first := false;
          var lines := DumpSection(doc.sections[name]);
          var heading := if name == "" then "" else "[" + name + "]\n";
          HeadedLines(name, doc.sections[name]);
          assert text + (more + (heading + lines) + DumpFrom(doc, doc.order[i + 1..], false))
            == text + (more + (heading + lines)) + DumpFrom(doc, doc.order[i + 1..], false);
          text := text + (more + (heading + lines));
        }
      }
      DumpEnds(doc, first);
      assert doc.order[|doc.order|..] == [];
    }

    method Get(section: string, key: string) returns (v: Option<string>)
      ensures v == doc.Get(section, key)
    {
      if section !in doc.sections || key !in doc.sections[section].values {
        return None;
      }
      return Some(doc.sections[section].values[key]);
    }

    method Set(section: string, key: string, value: string)
      requires Valid()
      modifies this
      ensures Valid() && doc == Put(old(doc), section, key, value)
    {
      hide PutIn;
      PutKeepsOk(doc, section, key, value);
      if section !in doc.sections {
        doc := Doc(doc.sections[section := EMPTY_SECTION], doc.order + [section]);
      }
      doc := doc.(sections := doc.sections[section := PutIn(doc.sections[section], key, value)]);
    }
  }

  lemma {:induction false} FindIs(s: string, c: char, n: nat)
    requires n <= |s| && c !in s[..n] && (n < |s| ==> s[n] == c)
    ensures Find(s, c) == n
  {
    if n > 0 {
      assert s[..n] == [s[0]] + s[1..][..n - 1];
      FindIs(s[1..], c, n - 1);
    }
  }

  lemma UnnamedIsOk()
    ensures DocOk(UNNAMED)
  {
    assert Ascending([]);
  }

  // ----- which entries survive -----

  predicate EndsWith(s: string, c: char) {
    s != [] && s[|s| - 1] == c
  }

  predicate NameOk(name: string) {
    Trimmed(name) && '\n' !in name
  }

  /** An entry that reads back as itself: trimmed, no line break, no `=` in the key,
      and a line that is neither a comment nor a section header. */
  predicate EntryOk(key: string, value: string) {
    && key != [] && Trimmed(key) && Trimmed(value) && '\n' !in key && '\n' !in value && '=' !in key
    && key[0] != '#' && key[0] != ';' && !(key[0] == '[' && EndsWith(value, ']'))
  }

  lemma EntryLineIsTrimmed(key: string, value: string)
    requires key != [] && Trimmed(key) && Trimmed(value)
    ensures Trim(key + "=" + value) == key + "=" + value
  {
    var line := key + "=" + value;
    assert line[0] == key[0] && line[|line| - 1] == if value == [] then '=' else value[|value| - 1];
    TrimIsTrimmed(line);
  }

  /** A line is understood as the entry it was printed for exactly if that is well formed. */
  lemma EntryLine(key: string, value: string)
    requires '\n' !in key && '\n' !in value
    ensures Classify(Trim(key + "=" + value)) == KeyValue(key, value) <==> EntryOk(key, value)
  {
    hide Trim, Find, IsSpace;
    var t := Trim(key + "=" + value);
    if Classify(t) == KeyValue(key, value) {
      var eq := Find(t, '=');
      TrimIsTrimmed(t[..eq]);
      TrimIsTrimmed(t[eq + 1..]);
      EntryLineIsTrimmed(key, value);
    } else if EntryOk(key, value) {
      EntryLineIsTrimmed(key, value);
      assert t[..|key|] == key && t[|key| + 1..] == value;
      FindIs(t, '=', |key|);
      TrimIsTrimmed(key);
      TrimIsTrimmed(value);
    }
  }

  lemma HeaderLine(name: string)
    requires NameOk(name)
    ensures Classify(Trim("[" + name + "]")) == Header(name)
  {
    hide Find, Trim;
    var t := "[" + name + "]";
    assert t[0] == '[' && t[|t| - 1] == ']' && t[1..|t| - 1] == name;
    TrimIsTrimmed(t);
    TrimIsTrimmed(name);
  }

  // ----- reading back one line -----

  lemma ParseLine(line: string, rest: string, d: Doc, current: string)
    requires '\n' !in line
    ensures ParseFrom(line + "\n" + rest, d, current) == ParseAs(Classify(Trim(line)), rest, d, current)
  {
    hide Classify, Trim, FirstLine, OtherLines, ParseAs;
    LineSplit(line, rest);
  }

  /** The printed line of a well-formed entry sets it; only a final backslash could
      draw in the next line. */
  lemma ParseEntry(key: string, value: string, rest: string, d: Doc, current: string)
    requires EntryOk(key, value) && (rest == [] || !EndsWith(value, '\\'))
    ensures ParseFrom(key + "=" + value + "\n" + rest, d, current)
      == ParseFrom(rest, Put(d, current, key, value), current)
  {
    hide Classify, Trim, FirstLine, OtherLines, Open, Put, ParseFrom;
    EntryLine(key, value);
    ParseLine(key + "=" + value, rest, d, current);
  }

  lemma ParseHeader(name: string, rest: string, d: Doc, current: string)
    requires NameOk(name)
    ensures ParseFrom("[" + name + "]\n" + rest, d, current) == ParseFrom(rest, Open(d, name), name)
  {
    hide Classify, Trim, Open, ParseFrom;
    HeaderLine(name);
    ParseLine("[" + name + "]", rest, d, current);
    assert "[" + name + "]\n" + rest == "[" + name + "]" + "\n" + rest;
  }

  lemma ParseBlank(rest: string, d: Doc, current: string)
    ensures ParseFrom("\n" + rest, d, current) == ParseFrom(rest, d, current)
  {
    hide ParseFrom;
    ParseLine("", rest, d, current);
    assert "" + "\n" + rest == "\n" + rest;
  }

  // ----- reading back a section -----

  /** A value may end in a backslash only where no line follows. */
  ghost predicate EntriesOk(keys: seq<string>, values: map<string, string>, last: bool) {
    forall i :: 0 <= i < |keys| ==>
      && keys[i] in values && EntryOk(keys[i], values[keys[i]])
      && (EndsWith(values[keys[i]], '\\') ==> last && i == |keys| - 1)
  }

  function PutAll(d: Doc, name: string, keys: seq<string>, values: map<string, string>): Doc
    requires forall k :: k in keys ==> k in values
    decreases |keys|
  {
    if keys == [] then d else PutAll(Put(d, name, keys[0], values[keys[0]]), name, keys[1..], values)
  }

  lemma {:induction false} ParseLines(keys: seq<string>, values: map<string, string>, rest: string, d: Doc,
                                      current: string)
    requires EntriesOk(keys, values, rest == "")
    ensures ParseFrom(Lines(keys, values) + rest, d, current)
      == ParseFrom(rest, PutAll(d, current, keys, values), current)
    decreases |keys|
  {
    hide EntryOk, EndsWith, Put, ParseFrom;
    if keys == [] {
      assert Lines(keys, values) + rest == rest;
    } else {
      var k := keys[0];
      var more := Lines(keys[1..], values) + rest;
      assert Lines(keys, values) + rest == k + "=" + values[k] + "\n" + more;
      assert keys[1..] == [] ==> more == rest;
      ParseEntry(k, values[k], more, d, current);
      ParseLines(keys[1..], values, rest, Put(d, current, k, values[k]), current);
    }
  }

  /** Entries that come in ascending order are added at the end. */
  lemma {:induction false} PutAllAppends(d: Doc, name: string, keys: seq<string>, values: map<string, string>)
    requires forall k :: k in keys ==> k in values
    requires name in d.sections && Ascending(d.sections[name].keys + keys)
    ensures var s := d.sections[name];
      PutAll(d, name, keys, values) ==
        d.(sections := d.sections[name := Section(s.keys + keys, s.values + map k | k in keys :: values[k])])
    decreases |keys|
  {
    hide Less, InsertKey, Ascending;
    var s := d.sections[name];
    if keys == [] {
      assert s.keys + keys == s.keys && s.values + map[] == s.values;
      assert d.sections[name := s] == d.sections;
    } else {
      var k := keys[0];
      AscendingPrefix(s.keys, keys);
      InsertAtEnd(s.keys, k);
      var next := Put(d, name, k, values[k]);
      assert next == d.(sections := d.sections[name := Section(s.keys + [k], s.values[k := values[k]])]);
      assert s.keys + keys == (s.keys + [k]) + keys[1..];
      PutAllAppends(next, name, keys[1..], values);
      OneMoreKey(s.values, keys, values);
    }
  }

  lemma OneMoreKey(before: map<string, string>, keys: seq<string>, values: map<string, string>)
    requires keys != [] && forall k :: k in keys ==> k in values
    ensures before[keys[0] := values[keys[0]]] + (map x | x in keys[1..] :: values[x])
      == before + map x | x in keys :: values[x]
  {
    assert forall x :: x in keys <==> x == keys[0] || x in keys[1..];
  }

  lemma AscendingPrefix(before: seq<string>, keys: seq<string>)
    requires Ascending(before + keys) && keys != []
    ensures forall i :: 0 <= i < |before| ==> Less(before[i], keys[0])
  {
    assert (before + keys)[|before|] == keys[0];
    assert forall i :: 0 <= i < |before| ==> (before + keys)[i] == before[i];
  }

  function WithSection(d: Doc, name: string, s: Section): Doc {
    var o := Open(d, name);
    o.(sections := o.sections[name := s])
  }

  /** A section read into a place where nothing is yet. */
  lemma ParseSection(name: string, s: Section, rest: string, d: Doc, current: string)
    requires SectionOk(s) && NameOk(name) && EntriesOk(s.keys, s.values, rest == "")
    requires name == "" ==> current == "" && "" in d.sections
    requires name in d.sections ==> d.sections[name] == EMPTY_SECTION
    ensures ParseFrom(SectionText(name, s) + rest, d, current) == ParseFrom(rest, WithSection(d, name, s), name)
  {
    hide Ascending, EntriesOk, ParseFrom, NameOk, Lines, PutAll;
    var lines := Lines(s.keys, s.values);
    if name == "" {
      assert SectionText(name, s) + rest == lines + rest;
    } else {
      assert SectionText(name, s) + rest == "[" + name + "]\n" + (lines + rest);
      ParseHeader(name, lines + rest, d, current);
    }
    var o := Open(d, name);
    ParseLines(s.keys, s.values, rest, o, name);
    assert EMPTY_SECTION.keys + s.keys == s.keys;
    PutAllAppends(o, name, s.keys, s.values);
    assert map[] + (map k | k in s.keys :: s.values[k]) == s.values;
  }

  // ----- reading back a document -----

  predicate IsPrinted(d: Doc, name: string) {
    name in d.sections && d.sections[name].keys != []
  }

  ghost predicate NothingPrinted(d: Doc, order: seq<string>) {
    forall i :: 0 <= i < |order| ==> !IsPrinted(d, order[i])
  }

  ghost predicate PrintedOk(d: Doc, name: string, last: bool) {
    IsPrinted(d, name) ==> NameOk(name) && EntriesOk(d.sections[name].keys, d.sections[name].values, last)
  }

  ghost predicate SectionsOk(d: Doc, order: seq<string>) {
    forall i :: 0 <= i < |order| ==> PrintedOk(d, order[i], NothingPrinted(d, order[i + 1..]))
  }

  /** The unnamed section, if it has entries, is printed before all others. */
  ghost predicate UnnamedFirst(d: Doc, order: seq<string>) {
    forall i, j :: 0 <= i < j < |order| && order[j] == "" ==> !(IsPrinted(d, order[i]) && IsPrinted(d, ""))
  }

  ghost predicate WellFormed(d: Doc) {
    DocOk(d) && SectionsOk(d, d.order) && UnnamedFirst(d, d.order)
  }

  /** The printed sections of `order`, added to acc. */
  function LoadedAll(acc: Doc, d: Doc, order: seq<string>): Doc
    decreases |order|
  {
    if order == [] then acc
    else if !IsPrinted(d, order[0]) then LoadedAll(acc, d, order[1..])
    else LoadedAll(WithSection(acc, order[0], d.sections[order[0]]), d, order[1..])
  }

  ghost predicate Distinct(order: seq<string>) {
    forall i, j :: 0 <= i < j < |order| ==> order[i] != order[j]
  }

  /** The sections still to come are not there yet. */
  ghost predicate NotYet(acc: Doc, order: seq<string>) {
    "" in acc.sections && forall n :: n in order && n in acc.sections ==> acc.sections[n] == EMPTY_SECTION
  }

  lemma {:induction false} ParseSections(d: Doc, order: seq<string>, acc: Doc, current: string, first: bool)
    requires DocOk(d) && SectionsOk(d, order) && Distinct(order) && UnnamedFirst(d, order) && NotYet(acc, order)
    requires current == "" || !("" in order && IsPrinted(d, ""))
    ensures ParseFrom(DumpFrom(d, order, first), acc, current) == LoadedAll(acc, d, order)
    decreases |order|
  {
    hide ParseFrom, SectionText, WithSection, EntriesOk, NameOk, Ascending;
    if order == [] {
      assert ParseFrom("", acc, current) == acc by { ParseNothing(acc, current); }
    } else {
      var name, rest := order[0], order[1..];
      TailKeeps(d, order);
      DumpFirst(d, order, first);
      if !IsPrinted(d, name) {
        ParseSections(d, rest, acc, current, first);
      } else {
        var text := SectionText(name, d.sections[name]) + DumpFrom(d, rest, false);
        if first {
          assert "" + text == text;
        } else {
          ParseBlank(text, acc, current);
        }
        DumpNothing(d, rest, false);
        ParseSection(name, d.sections[name], DumpFrom(d, rest, false), acc, current);
        LoadedKeepsNotYet(acc, order, d.sections[name]);
        ParseSections(d, rest, WithSection(acc, name, d.sections[name]), name, false);
      }
    }
  }

  lemma ParseNothing(d: Doc, current: string)
    ensures ParseFrom("", d, current) == d
  {
  }

  lemma TailKeeps(d: Doc, order: seq<string>)
    requires order != [] && Distinct(order) && UnnamedFirst(d, order)
    ensures Distinct(order[1..]) && UnnamedFirst(d, order[1..]) && order[0] !in order[1..]
    ensures IsPrinted(d, order[0]) ==> !("" in order[1..] && IsPrinted(d, ""))
    ensures SectionsOk(d, order) ==> SectionsOk(d, order[1..]) && PrintedOk(d, order[0], NothingPrinted(d, order[1..]))
    ensures DocOk(d) && IsPrinted(d, order[0]) ==> SectionOk(d.sections[order[0]])
  {
    hide SectionOk, PrintedOk, NothingPrinted, Ascending;
    var rest := order[1..];
    assert forall i :: 0 <= i < |rest| ==> rest[i] == order[i + 1] && rest[i + 1..] == order[i + 2..];
    if "" in rest {
      var j :| 0 <= j < |rest| && rest[j] == "";
      assert order[j + 1] == "";
    }
  }

  /** Nothing is written exactly if no section is printed. */
  lemma {:induction false} DumpNothing(d: Doc, order: seq<string>, first: bool)
    requires DocOk(d)
    ensures DumpFrom(d, order, first) == "" <==> NothingPrinted(d, order)
    decreases |order|
  {
    hide SectionText;
    if order != [] {
      DumpFirst(d, order, first);
      DumpNothing(d, order[1..], first);
      assert forall i :: 0 < i < |order| ==> order[i] == order[1..][i - 1];
      if IsPrinted(d, order[0]) {
        var s := d.sections[order[0]];
        HeadedLines(order[0], s);
        assert Lines(s.keys, s.values) != "";
      }
    }
  }

  lemma DumpFirst(d: Doc, order: seq<string>, first: bool)
    requires DocOk(d) && order != []
    ensures !IsPrinted(d, order[0]) ==> DumpFrom(d, order, first) == DumpFrom(d, order[1..], first)
    ensures IsPrinted(d, order[0]) ==> SectionOk(d.sections[order[0]])
    ensures IsPrinted(d, order[0]) ==>
      DumpFrom(d, order, first)
        == (if first then "" else "\n") + (SectionText(order[0], d.sections[order[0]]) + DumpFrom(d, order[1..], false))
  {
    hide SectionText;
  }

  lemma LoadedKeepsNotYet(acc: Doc, order: seq<string>, s: Section)
    requires order != [] && NotYet(acc, order) && order[0] !in order[1..]
    ensures NotYet(WithSection(acc, order[0], s), order[1..])
  {
  }

  lemma {:induction false} LoadedGets(acc: Doc, d: Doc, order: seq<string>, section: string, key: string)
    requires Distinct(order)
    ensures LoadedAll(acc, d, order).Get(section, key) ==
      if section in order && IsPrinted(d, section) then d.Get(section, key) else acc.Get(section, key)
    decreases |order|
  {
    if order != [] {
      assert forall i :: 0 <= i < |order[1..]| ==> order[1..][i] == order[i + 1];
      assert section in order <==> section == order[0] || section in order[1..];
      var next := if IsPrinted(d, order[0]) then WithSection(acc, order[0], d.sections[order[0]]) else acc;
      LoadedGets(next, d, order[1..], section, key);
    }
  }

  /** Printing and reading a well-formed document changes no lookup; other documents
      lose some (IniExact). */
  lemma RoundTrip(d: Doc, section: string, key: string)
    requires WellFormed(d)
    ensures Parsed(Dumped(d)).Get(section, key) == d.Get(section, key)
  {
    hide ParseFrom, DumpFrom, LoadedAll, SectionsOk, SectionOk, UnnamedFirst;
    ParseSections(d, d.order, UNNAMED, "", true);
    LoadedGets(UNNAMED, d, d.order, section, key);
    if section in d.sections && !IsPrinted(d, section) {
      NothingInEmpty(d, section, key);
    }
  }

  lemma NothingInEmpty(d: Doc, section: string, key: string)
    requires DocOk(d) && section in d.sections && d.sections[section].keys == []
    ensures d.Get(section, key) == None
  {
    assert SectionOk(d.sections[section]);
  }

  // ----- printing again -----

  lemma {:induction false} ParseKeepsOk(text: string, d: Doc, current: string)
    requires DocOk(d)
    ensures DocOk(ParseFrom(text, d, current))
    decreases |text|
  {
    hide Classify, Open, Put, DocOk, FirstLine, OtherLines;
    if text != [] {
      var rest := OtherLines(text);
      match Classify(Trim(FirstLine(text)))
      case Skipped =>
        ParseKeepsOk(rest, d, current);
      case Header(name) =>
        OpenKeepsOk(d, name);
        ParseKeepsOk(rest, Open(d, name), name);
      case KeyValue(key, value) =>
        var r := Continued(value, rest);
        PutKeepsOk(d, current, key, r.0);
        ParseKeepsOk(r.1, Put(d, current, key, r.0), current);
    }
  }

  function Printed(d: Doc, order: seq<string>): seq<string> {
    if order == [] then [] else (if IsPrinted(d, order[0]) then [order[0]] else []) + Printed(d, order[1..])
  }

  lemma {:induction false} DumpPrinted(d: Doc, e: Doc, order: seq<string>, first: bool)
    requires DocOk(d) && DocOk(e)
    requires forall n :: n in order && IsPrinted(d, n) ==> IsPrinted(e, n) && e.sections[n] == d.sections[n]
    ensures DumpFrom(e, Printed(d, order), first) == DumpFrom(d, order, first)
    decreases |order|
  {
    hide SectionText, DocOk;
    if order != [] {
      DumpFirst(d, order, first);
      DumpPrinted(d, e, order[1..], if IsPrinted(d, order[0]) then false else first);
      if IsPrinted(d, order[0]) {
        var printed := Printed(d, order);
        assert printed[0] == order[0] && printed[1..] == Printed(d, order[1..]);
        DumpFirst(e, printed, first);
      } else {
        assert Printed(d, order) == Printed(d, order[1..]);
      }
    }
  }

  /** The order after loading: the unnamed section, then the printed names. */
  lemma {:induction false} LoadedOrder(acc: Doc, d: Doc, order: seq<string>)
    requires Distinct(order) && UnnamedFirst(d, order)
    requires forall n :: n in order && n in acc.sections ==> n == ""
    requires "" in order && IsPrinted(d, "") ==> "" in acc.sections
    ensures "" in order && IsPrinted(d, "") ==> Printed(d, order) != [] && Printed(d, order)[0] == ""
    ensures LoadedAll(acc, d, order).order
      == acc.order + if "" in order && IsPrinted(d, "") then Printed(d, order)[1..] else Printed(d, order)
    decreases |order|
  {
    hide Distinct, UnnamedFirst, IsPrinted, WithSection, LoadedAll, Printed;
    LoadedStep(acc, d, order);
    if order != [] {
      TailKeeps(d, order);
      assert "" in order <==> "" == order[0] || "" in order[1..];
      if IsPrinted(d, order[0]) {
        PrintedIs(d, order[0]);
        NextNames(acc, order, d.sections[order[0]]);
        LoadedOrder(WithSection(acc, order[0], d.sections[order[0]]), d, order[1..]);
      } else {
        LoadedOrder(acc, d, order[1..]);
      }
    }
  }

  lemma LoadedStep(acc: Doc, d: Doc, order: seq<string>)
    ensures order == [] ==> LoadedAll(acc, d, order) == acc && Printed(d, order) == []
    ensures order != [] && IsPrinted(d, order[0]) ==>
      && order[0] in d.sections
      && LoadedAll(acc, d, order) == LoadedAll(WithSection(acc, order[0], d.sections[order[0]]), d, order[1..])
      && Printed(d, order) == [order[0]] + Printed(d, order[1..])
      && Printed(d, order)[1..] == Printed(d, order[1..])
    ensures order != [] && !IsPrinted(d, order[0]) ==>
      LoadedAll(acc, d, order) == LoadedAll(acc, d, order[1..]) && Printed(d, order) == Printed(d, order[1..])
  {
    hide WithSection;
  }

  lemma NextNames(acc: Doc, order: seq<string>, s: Section)
    requires order != [] && order[0] !in order[1..] && (order[0] == "" ==> "" in acc.sections)
    requires forall n :: n in order && n in acc.sections ==> n == ""
    ensures var next := WithSection(acc, order[0], s);
      && next.order == acc.order + (if order[0] == "" then [] else [order[0]])
      && ("" in acc.sections ==> "" in next.sections)
      && forall n :: n in order[1..] && n in next.sections ==> n == ""
  {
  }

  lemma PrintedIs(d: Doc, name: string)
    requires IsPrinted(d, name)
    ensures name in d.sections
  {
  }

  lemma {:induction false} LoadedSections(acc: Doc, d: Doc, order: seq<string>, n: string)
    requires Distinct(order)
    ensures var r := LoadedAll(acc, d, order);
      && (n in order && IsPrinted(d, n) ==> n in r.sections && r.sections[n] == d.sections[n])
      && (!(n in order && IsPrinted(d, n)) ==> (n in r.sections <==> n in acc.sections))
      && (!(n in order && IsPrinted(d, n)) && n in acc.sections ==> r.sections[n] == acc.sections[n])
    decreases |order|
  {
    if order != [] {
      assert forall i :: 0 <= i < |order[1..]| ==> order[1..][i] == order[i + 1];
      assert n in order <==> n == order[0] || n in order[1..];
      var next := if IsPrinted(d, order[0]) then WithSection(acc, order[0], d.sections[order[0]]) else acc;
      LoadedSections(next, d, order[1..], n);
    }
  }

  /** Saving what was loaded writes the same text again. */
  lemma DumpIsStable(d: Doc)
    requires WellFormed(d)
    ensures DocOk(Parsed(Dumped(d))) && Dumped(Parsed(Dumped(d))) == Dumped(d)
  {
    hide ParseFrom, DumpFrom, LoadedAll, SectionsOk, SectionOk, UnnamedFirst, Printed;
    ParseSections(d, d.order, UNNAMED, "", true);
    UnnamedIsOk();
    ParseKeepsOk(Dumped(d), UNNAMED, "");
    var r := LoadedAll(UNNAMED, d, d.order);
    forall n ensures n in d.order && IsPrinted(d, n) ==> IsPrinted(r, n) && r.sections[n] == d.sections[n] {
      LoadedSections(UNNAMED, d, d.order, n);
    }
    LoadedOrder(UNNAMED, d, d.order);
    DumpPrinted(d, r, d.order, true);
    var printed := Printed(d, d.order);
    if "" in d.order && IsPrinted(d, "") {
      assert r.order == [""] + printed[1..] == printed;
    } else {
      LoadedSections(UNNAMED, d, d.order, "");
      DumpFirst(r, [""] + printed, true);
      assert ([""] + printed)[1..] == printed;
    }
  }

  // ----- exactly which entries survive -----

  predicate KeyShape(key: string, value: string) {
    key != [] && Trimmed(key) && '\n' !in key && '=' !in key && '\n' !in value
  }

  /** What a parsed document can hold at all. */
  ghost predicate ShapeOk(d: Doc) {
    forall n, k :: n in d.sections && k in d.sections[n].values ==> NameOk(n) && KeyShape(k, d.sections[n].values[k])
  }

  lemma FirstLineShape(text: string)
    ensures '\n' !in Trim(FirstLine(text))
  {
    hide Trim, Find;
    TrimIsTrimmed(FirstLine(text));
  }

  lemma ClassifyShape(t: string)
    requires '\n' !in t
    ensures Classify(t).Header? ==> NameOk(Classify(t).name)
    ensures Classify(t).KeyValue? ==> KeyShape(Classify(t).key, Classify(t).value)
  {
    hide Trim, Find, Trimmed;
    if t != [] {
      if t[0] == '[' && t[|t| - 1] == ']' && |t| > 1 {
        TrimIsTrimmed(t[1..|t| - 1]);
      }
      var eq := Find(t, '=');
      TrimIsTrimmed(t[..eq]);
      if eq < |t| {
        TrimIsTrimmed(t[eq + 1..]);
      }
    }
  }

  lemma {:induction false} ContinuedShape(value: string, rest: string)
    requires '\n' !in value
    ensures '\n' !in Continued(value, rest).0
    decreases |rest|
  {
    hide Trim, FirstLine, OtherLines;
    if Continues(value, rest) {
      FirstLineShape(rest);
      ContinuedShape(value[..|value| - 1] + Trim(FirstLine(rest)), OtherLines(rest));
    }
  }

  lemma {:induction false} ParseKeepsShape(text: string, d: Doc, current: string)
    requires ShapeOk(d) && NameOk(current)
    ensures ShapeOk(ParseFrom(text, d, current))
    decreases |text|
  {
    hide Classify, FirstLine, OtherLines, NameOk, KeyShape, InsertKey, Trim;
    if text != [] {
      var rest, t := OtherLines(text), Trim(FirstLine(text));
      FirstLineShape(text);
      ClassifyShape(t);
      match Classify(t)
      case Skipped =>
        ParseKeepsShape(rest, d, current);
      case Header(name) =>
        ParseKeepsShape(rest, Open(d, name), name);
      case KeyValue(key, value) =>
        KeyShapeParts(key, value);
        ContinuedShape(value, rest);
        var r := Continued(value, rest);
        KeyShapeOf(key, value, r.0);
        ParseKeepsShape(r.1, Put(d, current, key, r.0), current);
    }
  }

  lemma KeyShapeParts(key: string, value: string)
    requires KeyShape(key, value)
    ensures '\n' !in value
  {
  }

  lemma KeyShapeOf(key: string, value: string, other: string)
    requires KeyShape(key, value) && '\n' !in other
    ensures KeyShape(key, other)
  {
  }

  const NOTHING := Doc(map[], [])

  /** A document of one entry. */
  function OneEntry(name: string, key: string, value: string): Doc {
    Put(NOTHING, name, key, value)
  }

  lemma OneEntryText(name: string, key: string, value: string)
    ensures var d := OneEntry(name, key, value);
      DocOk(d) && Dumped(d) == (if name == "" then "" else "[" + name + "]\n") + (key + "=" + value + "\n")
  {
    hide DocOk, SectionText, DumpFrom, Ascending;
    var d := OneEntry(name, key, value);
    assert DocOk(NOTHING) by { NothingIsOk(); }
    PutKeepsOk(NOTHING, name, key, value);
    var s := d.sections[name];
    assert d.order == [name] && s.keys == [key] && s.values == map[key := value];
    assert s == Section([key], map[key := value]) && [name][1..] == [];
    DumpFirst(d, [name], true);
    DumpEnds(d, false);
    OneLine(name, key, value);
    assert "" + (SectionText(name, s) + "") == SectionText(name, s);
  }

  lemma NothingIsOk()
    ensures DocOk(NOTHING)
  {
  }

  lemma OneLine(name: string, key: string, value: string)
    ensures SectionText(name, Section([key], map[key := value]))
      == (if name == "" then "" else "[" + name + "]\n") + (key + "=" + value + "\n")
  {
    assert Lines([key][1..], map[key := value]) == "";
    assert key + "=" + value + "\n" + "" == key + "=" + value + "\n";
  }

  /** The last line of a text. */
  lemma ParseLastEntry(key: string, value: string, d: Doc, current: string, name: string)
    requires '\n' !in key && '\n' !in value && d.Get(name, key) == None
    ensures ParseFrom(key + "=" + value + "\n", d, current).Get(name, key) == Some(value)
      <==> current == name && EntryOk(key, value)
  {
    hide Classify, Trim, FirstLine, OtherLines, PutIn;
    EntryLine(key, value);
    ParseLine(key + "=" + value, "", d, current);
    assert key + "=" + value + "\n" + "" == key + "=" + value + "\n";
    match Classify(Trim(key + "=" + value))
    case Skipped =>
    case Header(n) =>
    case KeyValue(k, v) =>
  }

  /** An entry of its own is read back exactly if its section name and it are well formed. */
  lemma SurvivesExactlyIf(name: string, key: string, value: string)
    ensures DocOk(OneEntry(name, key, value))
    ensures Parsed(Dumped(OneEntry(name, key, value))).Get(name, key) == Some(value)
      <==> NameOk(name) && EntryOk(key, value)
  {
    hide ParseFrom, DumpFrom, PutIn, KeyShape, EntryOk, NameOk;
    OneEntryText(name, key, value);
    var text := Dumped(OneEntry(name, key, value));
    UnnamedShape();
    ParseKeepsShape(text, UNNAMED, "");
    if Parsed(text).Get(name, key) == Some(value) {
      ShapeMeans(Parsed(text), name, key, value);
    }
    EntryOkMeans(key, value);
    if NameOk(name) && '\n' !in key && '\n' !in value {
      var line := key + "=" + value + "\n";
      if name == "" {
        assert text == line;
        ParseLastEntry(key, value, UNNAMED, "", name);
      } else {
        assert text == "[" + name + "]\n" + line;
        ParseHeader(name, line, UNNAMED, "");
        ParseLastEntry(key, value, Open(UNNAMED, name), name, name);
      }
    }
  }

  lemma UnnamedShape()
    ensures ShapeOk(UNNAMED) && NameOk("")
  {
  }

  lemma ShapeMeans(d: Doc, name: string, key: string, value: string)
    requires ShapeOk(d) && d.Get(name, key) == Some(value)
    ensures NameOk(name) && '\n' !in key && '\n' !in value
  {
  }

  lemma EntryOkMeans(key: string, value: string)
    ensures EntryOk(key, value) ==> '\n' !in key && '\n' !in value
  {
  }
}
