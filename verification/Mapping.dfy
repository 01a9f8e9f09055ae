/** Controller mappings and the INI text they are saved in. */
module Mapping {
  import opened Options
  import opened Ini
  import opened Words

  type u8 = x: int | 0 <= x < 0x100
  type u16 = x: int | 0 <= x < 0x1_0000
  type i32 = x: int | -0x8000_0000 <= x < 0x8000_0000

  // ----- numbers -----

  predicate IsDigit(c: char) { '0' <= c <= '9' }

  function DigitChar(d: nat): (c: char)
    requires d < 10
    ensures IsDigit(c)
  {
    ('0' as int + d) as char
  }

  function DigitValue(c: char): nat
    requires IsDigit(c)
  {
    c as int - '0' as int
  }

  /** The decimal form of a number. */
  function Digits(n: nat): (s: string)
    ensures s != [] && forall c :: c in s ==> IsDigit(c)
  {
    if n < 10 then [DigitChar(n)] else Digits(n / 10) + [DigitChar(n % 10)]
  }

  function ToString(n: int): string {
    if n < 0 then "-" + Digits(-n) else Digits(n)
  }

  function NumberOf(s: string): nat
    requires forall c :: c in s ==> IsDigit(c)
  {
    if s == [] then 0 else 10 * NumberOf(s[..|s| - 1]) + DigitValue(s[|s| - 1])
  }

  /** How many digits s begins with. */
  function DigitCount(s: string): (n: nat)
    ensures n <= |s| && forall c :: c in s[..n] ==> IsDigit(c)
  {
    if s == [] || !IsDigit(s[0]) then 0
    else
      var n := 1 + DigitCount(s[1..]);
      assert s[..n] == [s[0]] + s[1..][..n - 1];
      n
  }

  function SkipSpace(s: string): string {
    if s != [] && (IsSpace(s[0]) || s[0] as int == 11 || s[0] as int == 12) then SkipSpace(s[1..]) else s
  }

  /** What the C conversions read: white space, a sign, digits, and anything after. */
  function ParseInt(s: string): Option<int> {
    var t := SkipSpace(s);
    var signed := t != [] && (t[0] == '-' || t[0] == '+');
    var u := if signed then t[1..] else t;
    var n := DigitCount(u);
    var m: int := NumberOf(u[..n]);
    if n == 0 then None else Some(if signed && t[0] == '-' then -m else m)
  }

  /** `stoll`: None where it throws. */
  function Stoll(s: string): Option<int> {
    var r := ParseInt(s);
    if r.Some? && -0x8000_0000_0000_0000 <= r.value < 0x8000_0000_0000_0000 then r else None
  }

  /** `stoul` with 32-bit `unsigned long`, which takes negative numbers modulo 2^32. */
  function Stoul(s: string): Option<int> {
    var r := ParseInt(s);
    if r.Some? && -0x1_0000_0000 < r.value < 0x1_0000_0000 then Some(r.value % 0x1_0000_0000) else None
  }

  lemma {:induction false} NumberOfDigits(n: nat)
    ensures NumberOf(Digits(n)) == n
  {
    if n < 10 {
      assert Digits(n)[..0] == [];
    } else {
      NumberOfDigits(n / 10);
      assert Digits(n)[..|Digits(n)| - 1] == Digits(n / 10);
    }
  }

  lemma {:induction false} AllDigits(s: string)
    requires forall c :: c in s ==> IsDigit(c)
    ensures DigitCount(s) == |s|
  {
    if s != [] {
      AllDigits(s[1..]);
    }
  }

  /** Reading the decimal form of a number gives the number. */
  lemma ParsePrinted(n: int)
    ensures ParseInt(ToString(n)) == Some(n)
  {
    hide Digits, NumberOf, DigitCount;
    var m: nat := if n < 0 then -n else n;
    var s := Digits(m);
    AllDigits(s);
    NumberOfDigits(m);
    assert s[0] in s && s[..|s|] == s;
    if n < 0 {
      assert ("-" + s)[1..] == s;
    }
  }

  // ----- bindings -----

  datatype InputType = NoInput | SdlButton | SdlAxisPos | SdlAxisNeg | SdlHat | KeyboardKey

  datatype InputBinding = InputBinding(kind: InputType, index: u16)

  const UNBOUND := InputBinding(NoInput, 0)

  function PackHat(hatIndex: u8, direction: u8): u16 { 0x100 * direction + hatIndex }

  function HatIndex(packed: u16): u8 { packed % 0x100 }

  function HatDirection(packed: u16): u8 { packed / 0x100 }

  function Serialize(b: InputBinding): string {
    match b.kind
    case NoInput => "none"
    case SdlButton => "btn:" + Digits(b.index)
    case SdlAxisPos => "axp:" + Digits(b.index)
    case SdlAxisNeg => "axn:" + Digits(b.index)
    case SdlHat => "hat:" + Digits(HatIndex(b.index)) + ":" + Digits(HatDirection(b.index))
    case KeyboardKey => "key:" + Digits(b.index)
  }

  function Plain(kind: InputType, rest: string): InputBinding {
    var r := Stoul(rest);
    if r.None? then UNBOUND else InputBinding(kind, r.value % 0x1_0000)
  }

  function Hat(rest: string): InputBinding {
    var colon := Find(rest, ':');
    if colon == |rest| then UNBOUND
    else
      var index, direction := Stoul(rest[..colon]), Stoul(rest[colon + 1..]);
      if index.None? || direction.None? then UNBOUND
      else InputBinding(SdlHat, PackHat(index.value % 0x100, direction.value % 0x100))
  }

  function ByPrefix(prefix: string, rest: string): InputBinding {
    if prefix == "btn" then Plain(SdlButton, rest)
    else if prefix == "axp" then Plain(SdlAxisPos, rest)
    else if prefix == "axn" then Plain(SdlAxisNeg, rest)
    else if prefix == "key" then Plain(KeyboardKey, rest)
    else if prefix == "hat" then Hat(rest)
    else UNBOUND
  }

  /** Anything that cannot be read is no binding. */
  function ParseBinding(s: string): InputBinding {
    var colon := Find(s, ':');
    if s == "" || s == "none" || colon == |s| then UNBOUND else ByPrefix(s[..colon], s[colon + 1..])
  }

  lemma StoulPrinted(n: u32)
    ensures Stoul(Digits(n)) == Some(n)
  {
    hide Digits, ParseInt;
    ParsePrinted(n);
    assert ToString(n) == Digits(n);
  }

  lemma NoColon(n: nat)
    ensures ':' !in Digits(n)
  {
  }

  lemma SplitAtColon(prefix: string, rest: string)
    requires ':' !in prefix
    ensures var s := prefix + ":" + rest;
      Find(s, ':') == |prefix| && s[..|prefix|] == prefix && s[|prefix| + 1..] == rest
  {
    var s := prefix + ":" + rest;
    assert s[..|prefix|] == prefix && s[|prefix|] == ':' && s[|prefix| + 1..] == rest;
    FindIs(s, ':', |prefix|);
  }

  lemma ReadPrefixed(prefix: string, rest: string)
    requires ':' !in prefix && |prefix| == 3
    ensures ParseBinding(prefix + ":" + rest) == ByPrefix(prefix, rest)
  {
    hide ByPrefix, Find;
    SplitAtColon(prefix, rest);
    assert (prefix + ":" + rest)[3] == ':';
  }

  lemma PlainRoundTrip(kind: InputType, index: u16)
    ensures Plain(kind, Digits(index)) == InputBinding(kind, index)
  {
    hide Digits, Stoul;
    StoulPrinted(index);
  }

  lemma HatRoundTrip(index: u16)
    ensures Hat(Digits(HatIndex(index)) + ":" + Digits(HatDirection(index))) == InputBinding(SdlHat, index)
  {
    hide Digits, Stoul, Find;
    StoulPrinted(HatIndex(index));
    StoulPrinted(HatDirection(index));
    NoColon(HatIndex(index));
    SplitAtColon(Digits(HatIndex(index)), Digits(HatDirection(index)));
  }

  /** A binding reads back as itself, unless it is empty with a stray index. */
  lemma BindingRoundTrip(b: InputBinding)
    ensures ParseBinding(Serialize(b)) == b <==> (b.kind == NoInput ==> b.index == 0)
  {
    hide Digits, Plain, Hat, Find, ParseBinding, HatIndex, HatDirection;
    var n := Digits(b.index);
    PlainRoundTrip(b.kind, b.index);
    match b.kind
    case NoInput =>
      NoneIsUnbound();
    case SdlButton =>
      ReadPrefixed("btn", n);
      assert Serialize(b) == "btn" + ":" + n;
    case SdlAxisPos =>
      ReadPrefixed("axp", n);
      assert Serialize(b) == "axp" + ":" + n;
    case SdlAxisNeg =>
      ReadPrefixed("axn", n);
      assert Serialize(b) == "axn" + ":" + n;
    case KeyboardKey =>
      ReadPrefixed("key", n);
      assert Serialize(b) == "key" + ":" + n;
    case SdlHat =>
      var rest := Digits(HatIndex(b.index)) + ":" + Digits(HatDirection(b.index));
      HatRoundTrip(b.index);
      ReadPrefixed("hat", rest);
      assert Serialize(b) == "hat" + ":" + rest;
  }

  lemma NoneIsUnbound()
    ensures ParseBinding("none") == UNBOUND
  {
  }

  /** Whatever was read is written in a form that reads the same. */
  lemma ReadBindingIsStable(s: string)
    ensures ParseBinding(Serialize(ParseBinding(s))) == ParseBinding(s)
  {
    hide Serialize, Stoul, Find;
    BindingRoundTrip(ParseBinding(s));
  }

  // ----- mappings -----

  datatype Mapping = Mapping(
    deviceIndex: i32,
    a: InputBinding, b: InputBinding, c: InputBinding, d: InputBinding, e: InputBinding, ab: InputBinding,
    start: InputBinding, fn1: InputBinding, fn2: InputBinding,
    up: InputBinding, down: InputBinding, left: InputBinding, right: InputBinding,
    stickXAxis: u8, stickYAxis: u8, deadzone: u32, socdMode: u8,
    airDashMacro: bool, jumpFrames: u8, prepFrames: u8, pulseFrames: u8)

  datatype Key =
    | Device | KeyA | KeyB | KeyC | KeyD | KeyE | KeyAB | Start | Fn1 | Fn2
    | Up | Down | Left | Right | StickX | StickY | Deadzone | Socd
    | AirDashMacro | JumpFrames | PrepFrames | PulseFrames

  const KEYS: seq<Key> := [
    Device, KeyA, KeyB, KeyC, KeyD, KeyE, KeyAB, Start, Fn1, Fn2, Up, Down, Left, Right,
    StickX, StickY, Deadzone, Socd, AirDashMacro, JumpFrames, PrepFrames, PulseFrames]

  function Name(k: Key): string {
    match k
    case Device => "device"
    case KeyA => "a"
    case KeyB => "b"
    case KeyC => "c"
    case KeyD => "d"
    case KeyE => "e"
    case KeyAB => "ab"
    case Start => "start"
    case Fn1 => "fn1"
    case Fn2 => "fn2"
    case Up => "up"
    case Down => "down"
    case Left => "left"
    case Right => "right"
    case StickX => "stick_x"
    case StickY => "stick_y"
    case Deadzone => "deadzone"
    case Socd => "socd"
    case AirDashMacro => "air_dash_macro"
    case JumpFrames => "air_dash_jump_frames"
    case PrepFrames => "air_dash_prep_frames"
    case PulseFrames => "air_dash_pulse_frames"
  }

  /** What is saved under a key. */
  function Value(m: Mapping, k: Key): string {
    match k
    case Device => ToString(m.deviceIndex)
    case KeyA => Serialize(m.a)
    case KeyB => Serialize(m.b)
    case KeyC => Serialize(m.c)
    case KeyD => Serialize(m.d)
    case KeyE => Serialize(m.e)
    case KeyAB => Serialize(m.ab)
    case Start => Serialize(m.start)
    case Fn1 => Serialize(m.fn1)
    case Fn2 => Serialize(m.fn2)
    case Up => Serialize(m.up)
    case Down => Serialize(m.down)
    case Left => Serialize(m.left)
    case Right => Serialize(m.right)
    case StickX => ToString(m.stickXAxis)
    case StickY => ToString(m.stickYAxis)
    case Deadzone => ToString(m.deadzone)
    case Socd => ToString(m.socdMode)
    case AirDashMacro => if m.airDashMacro then "1" else "0"
    case JumpFrames => ToString(m.jumpFrames)
    case PrepFrames => ToString(m.prepFrames)
    case PulseFrames => ToString(m.pulseFrames)
  }

  /** The key of a name. */
  function KeyOf(s: string): Key {
    if |s| == 1 then
      if s[0] == 'a' then KeyA else if s[0] == 'b' then KeyB else if s[0] == 'c' then KeyC
      else if s[0] == 'd' then KeyD else KeyE
    else if |s| == 2 then if s[0] == 'a' then KeyAB else Up
    else if |s| == 3 then if s[2] == '1' then Fn1 else Fn2
    else if |s| == 4 then if s[0] == 'd' then Down else if s[0] == 'l' then Left else Socd
    else if |s| == 5 then if s[0] == 's' then Start else Right
    else if |s| == 6 then Device
    else if |s| == 7 then if s[6] == 'x' then StickX else StickY
    else if |s| == 8 then Deadzone
    else if |s| == 14 then AirDashMacro
    else if |s| == 20 then if s[9] == 'j' then JumpFrames else PrepFrames
    else PulseFrames
  }

  lemma NamesDiffer(k: Key)
    ensures KeyOf(Name(k)) == k && Name(k) != ""
  {
    match k {
      case Device =>
      case KeyA =>
      case KeyB =>
      case KeyC =>
      case KeyD =>
      case KeyE =>
      case KeyAB =>
      case Start =>
      case Fn1 =>
      case Fn2 =>
      case Up =>
      case Down =>
      case Left =>
      case Right =>
      case StickX =>
      case StickY =>
      case Deadzone =>
      case Socd =>
      case AirDashMacro =>
      case JumpFrames =>
      case PrepFrames =>
      case PulseFrames =>
    }
  }

  // ----- saving -----

  function PutKeys(doc: Doc, section: string, m: Mapping, keys: seq<Key>): Doc {
    if keys == [] then doc
    else Put(PutKeys(doc, section, m, keys[..|keys| - 1]), section, Name(keys[|keys| - 1]), Value(m, keys[|keys| - 1]))
  }

  /** The effect of saving one player. */
  function Saved(doc: Doc, section: string, m: Mapping): Doc {
    PutKeys(doc, section, m, KEYS)
  }

  lemma {:induction false} PutKeysGets(doc: Doc, section: string, m: Mapping, keys: seq<Key>, s: string, k: Key)
    ensures PutKeys(doc, section, m, keys).Get(s, Name(k)) ==
      if s == section && k in keys then Some(Value(m, k)) else doc.Get(s, Name(k))
    decreases |keys|
  {
    hide Name, Value, Put, KeyOf;
    if keys != [] {
      var last := keys[|keys| - 1];
      PutKeysGets(doc, section, m, keys[..|keys| - 1], s, k);
      NamesDiffer(k);
      NamesDiffer(last);
      assert keys == keys[..|keys| - 1] + [last];
      PutGets(PutKeys(doc, section, m, keys[..|keys| - 1]), section, Name(last), Value(m, last), s, Name(k));
    }
  }

  lemma PutGets(d: Doc, section: string, key: string, value: string, s: string, k: string)
    ensures Put(d, section, key, value).Get(s, k) == if s == section && k == key then Some(value) else d.Get(s, k)
  {
  }

  lemma AllKeys(k: Key)
    ensures k in KEYS
  {
    match k {
      case Device => assert KEYS[0] == k;
      case KeyA => assert KEYS[1] == k;
      case KeyB => assert KEYS[2] == k;
      case KeyC => assert KEYS[3] == k;
      case KeyD => assert KEYS[4] == k;
      case KeyE => assert KEYS[5] == k;
      case KeyAB => assert KEYS[6] == k;
      case Start => assert KEYS[7] == k;
      case Fn1 => assert KEYS[8] == k;
      case Fn2 => assert KEYS[9] == k;
      case Up => assert KEYS[10] == k;
      case Down => assert KEYS[11] == k;
      case Left => assert KEYS[12] == k;
      case Right => assert KEYS[13] == k;
      case StickX => assert KEYS[14] == k;
      case StickY => assert KEYS[15] == k;
      case Deadzone => assert KEYS[16] == k;
      case Socd => assert KEYS[17] == k;
      case AirDashMacro => assert KEYS[18] == k;
      case JumpFrames => assert KEYS[19] == k;
      case PrepFrames => assert KEYS[20] == k;
      case PulseFrames => assert KEYS[21] == k;
    }
  }

  /** Every key of the saved player holds its value, and nothing else has changed. */
  lemma SavedGets(doc: Doc, section: string, m: Mapping, s: string, k: Key)
    ensures Saved(doc, section, m).Get(s, Name(k)) == if s == section then Some(Value(m, k)) else doc.Get(s, Name(k))
  {
    hide Name, Value, PutKeys, KEYS;
    AllKeys(k);
    PutKeysGets(doc, section, m, KEYS, s, k);
  }

  // ----- loading -----

  function GetInt(doc: Doc, section: string, k: Key, fallback: int): int {
    var v := doc.Get(section, Name(k));
    if v.None? then fallback
    else
      var x := Stoll(v.value);
      if x.None? then fallback else x.value
  }

  function ToLower(c: char): char {
    if 'A' <= c <= 'Z' then (c as int + 32) as char else c
  }

  function Lower(s: string): string {
    seq(|s|, i requires 0 <= i < |s| => ToLower(s[i]))
  }

  function GetBool(doc: Doc, section: string, k: Key, fallback: bool): bool {
    var v := doc.Get(section, Name(k));
    if v.None? then fallback
    else
      var lower := Lower(v.value);
      if lower == "true" || lower == "1" || lower == "yes" || lower == "on" then true
      else if lower == "false" || lower == "0" || lower == "no" || lower == "off" then false
      else fallback
  }

  function GetBinding(doc: Doc, section: string, k: Key, old': InputBinding): InputBinding {
    var v := doc.Get(section, Name(k));
    if v.None? then old' else ParseBinding(v.value)
  }

  /** Conversion to a 32-bit signed integer. */
  function ToI32(x: int): i32 {
    (x + 0x8000_0000) % 0x1_0000_0000 - 0x8000_0000
  }

  function Clamp(x: int, low: int, high: int): int
    requires low <= high
  {
    if x < low then low else if x > high then high else x
  }

  /** 0 is taken as 1 before the value is cut to a byte. */
  function SocdFrom(x: int): u8 {
    (if ToI32(x) == 0 then 1 else ToI32(x)) % 0x100
  }

  /** The mapping m with the bindings that a document has. */
  function WithBindings(doc: Doc, s: string, m: Mapping): Mapping {
    m.(a := GetBinding(doc, s, KeyA, m.a), b := GetBinding(doc, s, KeyB, m.b), c := GetBinding(doc, s, KeyC, m.c),
       d := GetBinding(doc, s, KeyD, m.d), e := GetBinding(doc, s, KeyE, m.e),
       ab := GetBinding(doc, s, KeyAB, m.ab), start := GetBinding(doc, s, Start, m.start),
       fn1 := GetBinding(doc, s, Fn1, m.fn1), fn2 := GetBinding(doc, s, Fn2, m.fn2),
       up := GetBinding(doc, s, Up, m.up), down := GetBinding(doc, s, Down, m.down),
       left := GetBinding(doc, s, Left, m.left), right := GetBinding(doc, s, Right, m.right))
  }

  /** The mapping m after loading one player from a document. */
  function Loaded(doc: Doc, s: string, m: Mapping): Mapping {
    WithBindings(doc, s, m).(
      deviceIndex := ToI32(GetInt(doc, s, Device, m.deviceIndex)),
      stickXAxis := GetInt(doc, s, StickX, m.stickXAxis) % 0x100,
      stickYAxis := GetInt(doc, s, StickY, m.stickYAxis) % 0x100,
      deadzone := GetInt(doc, s, Deadzone, m.deadzone) % 0x1_0000_0000,
      socdMode := SocdFrom(GetInt(doc, s, Socd, m.socdMode)),
      airDashMacro := GetBool(doc, s, AirDashMacro, m.airDashMacro),
      jumpFrames := Clamp(GetInt(doc, s, JumpFrames, m.jumpFrames), 1, 30),
      prepFrames := Clamp(GetInt(doc, s, PrepFrames, m.prepFrames), 0, 30),
      pulseFrames := Clamp(GetInt(doc, s, PulseFrames, m.pulseFrames), 1, 30))
  }

  predicate BindingOk(b: InputBinding) { b.kind == NoInput ==> b.index == 0 }

  /** What loading can produce. */
  predicate Canonical(m: Mapping) {
    && BindingsOk(m) && m.socdMode != 0 && 1 <= m.jumpFrames <= 30 && m.prepFrames <= 30 && 1 <= m.pulseFrames <= 30
  }

  /** The document holds the values of m. */
  ghost predicate Says(d: Doc, s: string, m: Mapping) {
    forall k :: d.Get(s, Name(k)) == Some(Value(m, k))
  }

  lemma IntSaid(d: Doc, s: string, k: Key, n: int, fallback: int)
    requires d.Get(s, Name(k)) == Some(ToString(n)) && -0x8000_0000_0000_0000 <= n < 0x8000_0000_0000_0000
    ensures GetInt(d, s, k, fallback) == n
  {
    hide ParseInt, ToString, Name;
    ParsePrinted(n);
  }

  lemma BindingSaid(d: Doc, s: string, k: Key, b: InputBinding, fallback: InputBinding)
    requires d.Get(s, Name(k)) == Some(Serialize(b))
    ensures GetBinding(d, s, k, fallback) == b <==> BindingOk(b)
  {
    hide ParseBinding, Serialize, Name;
    BindingRoundTrip(b);
  }

  lemma BoolSaid(d: Doc, s: string, k: Key, b: bool, fallback: bool)
    requires d.Get(s, Name(k)) == Some(if b then "1" else "0")
    ensures GetBool(d, s, k, fallback) == b
  {
    hide Name;
    assert Lower("1") == "1" && Lower("0") == "0";
  }

  ghost predicate SameBindings(l: Mapping, m: Mapping) {
    && l.a == m.a && l.b == m.b && l.c == m.c && l.d == m.d && l.e == m.e && l.ab == m.ab
    && l.start == m.start && l.fn1 == m.fn1 && l.fn2 == m.fn2
    && l.up == m.up && l.down == m.down && l.left == m.left && l.right == m.right
  }

  predicate BindingsOk(m: Mapping) {
    && BindingOk(m.a) && BindingOk(m.b) && BindingOk(m.c) && BindingOk(m.d) && BindingOk(m.e) && BindingOk(m.ab)
    && BindingOk(m.start) && BindingOk(m.fn1) && BindingOk(m.fn2)
    && BindingOk(m.up) && BindingOk(m.down) && BindingOk(m.left) && BindingOk(m.right)
  }

  lemma LoadedBindings(d: Doc, s: string, m: Mapping, before: Mapping)
    requires Says(d, s, m)
    ensures SameBindings(Loaded(d, s, before), m) <==> BindingsOk(m)
  {
    hide Name, Doc.Get, GetInt, GetBinding, GetBool, ToString, Serialize, ParseBinding, BindingOk, Says, ToI32,
      SocdFrom, Clamp;
    SaidOf(d, s, m, KeyA);
    BindingSaid(d, s, KeyA, m.a, before.a);
    SaidOf(d, s, m, KeyB);
    BindingSaid(d, s, KeyB, m.b, before.b);
    SaidOf(d, s, m, KeyC);
    BindingSaid(d, s, KeyC, m.c, before.c);
    SaidOf(d, s, m, KeyD);
    BindingSaid(d, s, KeyD, m.d, before.d);
    SaidOf(d, s, m, KeyE);
    BindingSaid(d, s, KeyE, m.e, before.e);
    SaidOf(d, s, m, KeyAB);
    BindingSaid(d, s, KeyAB, m.ab, before.ab);
    SaidOf(d, s, m, Start);
    BindingSaid(d, s, Start, m.start, before.start);
    SaidOf(d, s, m, Fn1);
    BindingSaid(d, s, Fn1, m.fn1, before.fn1);
    SaidOf(d, s, m, Fn2);
    BindingSaid(d, s, Fn2, m.fn2, before.fn2);
    SaidOf(d, s, m, Up);
    BindingSaid(d, s, Up, m.up, before.up);
    SaidOf(d, s, m, Down);
    BindingSaid(d, s, Down, m.down, before.down);
    SaidOf(d, s, m, Left);
    BindingSaid(d, s, Left, m.left, before.left);
    SaidOf(d, s, m, Right);
    BindingSaid(d, s, Right, m.right, before.right);
  }

  lemma SaidOf(d: Doc, s: string, m: Mapping, k: Key)
    requires Says(d, s, m)
    ensures d.Get(s, Name(k)) == Some(Value(m, k))
  {
    hide Name, Value, Doc.Get;
  }

  lemma LoadedNumbers(d: Doc, s: string, m: Mapping, before: Mapping)
    requires Says(d, s, m)
    ensures var l := Loaded(d, s, before);
      && l.deviceIndex == m.deviceIndex && l.stickXAxis == m.stickXAxis && l.stickYAxis == m.stickYAxis
      && l.deadzone == m.deadzone && l.airDashMacro == m.airDashMacro
      && (l.socdMode == m.socdMode <==> m.socdMode != 0)
      && (l.jumpFrames == m.jumpFrames <==> 1 <= m.jumpFrames <= 30)
      && (l.prepFrames == m.prepFrames <==> m.prepFrames <= 30)
      && (l.pulseFrames == m.pulseFrames <==> 1 <= m.pulseFrames <= 30)
  {
    hide Name, Doc.Get, GetInt, GetBinding, GetBool, ToString, Serialize, ParseBinding, Says;
    SaidOf(d, s, m, Device);
    IntSaid(d, s, Device, m.deviceIndex, before.deviceIndex);
    SaidOf(d, s, m, StickX);
    IntSaid(d, s, StickX, m.stickXAxis, before.stickXAxis);
    SaidOf(d, s, m, StickY);
    IntSaid(d, s, StickY, m.stickYAxis, before.stickYAxis);
    SaidOf(d, s, m, Deadzone);
    IntSaid(d, s, Deadzone, m.deadzone, before.deadzone);
    SaidOf(d, s, m, Socd);
    IntSaid(d, s, Socd, m.socdMode, before.socdMode);
    SaidOf(d, s, m, AirDashMacro);
    BoolSaid(d, s, AirDashMacro, m.airDashMacro, before.airDashMacro);
    SaidOf(d, s, m, JumpFrames);
    IntSaid(d, s, JumpFrames, m.jumpFrames, before.jumpFrames);
    SaidOf(d, s, m, PrepFrames);
    IntSaid(d, s, PrepFrames, m.prepFrames, before.prepFrames);
    SaidOf(d, s, m, PulseFrames);
    IntSaid(d, s, PulseFrames, m.pulseFrames, before.pulseFrames);
  }

  /** What was saved is loaded back unchanged exactly if it is canonical. */
  lemma LoadedIsSaved(d: Doc, s: string, m: Mapping, before: Mapping)
    requires Says(d, s, m)
    ensures Loaded(d, s, before) == m <==> Canonical(m)
  {
    hide Name, Doc.Get, Loaded, Says, BindingOk;
    LoadedBindings(d, s, m, before);
    LoadedNumbers(d, s, m, before);
  }

  // ----- through the text -----

  predicate IsPlain(c: char) {
    'a' <= c <= 'z' || 'A' <= c <= 'Z' || IsDigit(c) || c == '_' || c == ':' || c == '-'
  }

  predicate AllPlain(s: string) {
    forall c :: c in s ==> IsPlain(c)
  }

  lemma LongNamesArePlain()
    ensures AllPlain("air_dash_macro") && AllPlain("air_dash_jump_frames")
    ensures AllPlain("air_dash_prep_frames") && AllPlain("air_dash_pulse_frames")
  {
  }

  lemma NamesArePlain(k: Key)
    ensures AllPlain(Name(k)) && Name(k) != ""
  {
    LongNamesArePlain();
    match k {
      case Device =>
      case KeyA =>
      case KeyB =>
      case KeyC =>
      case KeyD =>
      case KeyE =>
      case KeyAB =>
      case Start =>
      case Fn1 =>
      case Fn2 =>
      case Up =>
      case Down =>
      case Left =>
      case Right =>
      case StickX =>
      case StickY =>
      case Deadzone =>
      case Socd =>
      case AirDashMacro =>
      case JumpFrames =>
      case PrepFrames =>
      case PulseFrames =>
    }
  }

  lemma PrintedIsPlain(n: int)
    ensures AllPlain(ToString(n))
  {
  }

  lemma SerializedIsPlain(b: InputBinding)
    ensures AllPlain(Serialize(b))
  {
    hide Digits;
  }

  lemma ValuesArePlain(m: Mapping, k: Key)
    ensures AllPlain(Value(m, k))
  {
    hide ToString, Serialize, AllPlain;
    forall n ensures AllPlain(ToString(n)) { PrintedIsPlain(n); }
    forall b ensures AllPlain(Serialize(b)) { SerializedIsPlain(b); }
    assert AllPlain("0") && AllPlain("1") by { BitsArePlain(); }
  }

  lemma BitsArePlain()
    ensures AllPlain("0") && AllPlain("1")
  {
  }

  /** Plain text is safe in an INI line. */
  lemma PlainIsOk(key: string, value: string)
    requires AllPlain(key) && AllPlain(value) && key != ""
    ensures EntryOk(key, value) && !EndsWith(value, '\\') && NameOk(key)
  {
    assert key[0] in key && key[|key| - 1] in key;
    assert value != "" ==> value[0] in value && value[|value| - 1] in value;
    assert forall c :: c in key || c in value ==> IsPlain(c);
  }

  ghost predicate PlainDoc(d: Doc) {
    && "" !in d.sections
    && (forall n :: n in d.sections ==> AllPlain(n))
    && forall n, k :: n in d.sections && k in d.sections[n].values ==>
         k != "" && AllPlain(k) && AllPlain(d.sections[n].values[k])
  }

  lemma {:induction false} PutKeysIsPlain(doc: Doc, section: string, m: Mapping, keys: seq<Key>)
    requires DocOk(doc) && PlainDoc(doc) && AllPlain(section) && section != ""
    ensures DocOk(PutKeys(doc, section, m, keys)) && PlainDoc(PutKeys(doc, section, m, keys))
    decreases |keys|
  {
    hide DocOk, Name, Value, AllPlain, InsertKey;
    if keys != [] {
      var before, last := PutKeys(doc, section, m, keys[..|keys| - 1]), keys[|keys| - 1];
      PutKeysIsPlain(doc, section, m, keys[..|keys| - 1]);
      NamesArePlain(last);
      ValuesArePlain(m, last);
      PutKeepsOk(before, section, Name(last), Value(m, last));
    }
  }

  lemma PlainPrinted(d: Doc, n: string, last: bool)
    requires DocOk(d) && PlainDoc(d)
    ensures PrintedOk(d, n, last)
  {
    hide AllPlain, EntryOk, NameOk, EndsWith, Ascending;
    if IsPrinted(d, n) {
      PlainIsOk(n, n);
      assert SectionOk(d.sections[n]);
      forall k | k in d.sections[n].keys
        ensures k in d.sections[n].values && EntryOk(k, d.sections[n].values[k])
        ensures !EndsWith(d.sections[n].values[k], '\\')
      {
        PlainIsOk(k, d.sections[n].values[k]);
      }
    }
  }

  lemma PlainIsWellFormed(d: Doc)
    requires DocOk(d) && PlainDoc(d)
    ensures WellFormed(d)
  {
    hide AllPlain, SectionOk, PrintedOk, NothingPrinted;
    forall i | 0 <= i < |d.order|
      ensures PrintedOk(d, d.order[i], NothingPrinted(d, d.order[i + 1..]))
    {
      PlainPrinted(d, d.order[i], NothingPrinted(d, d.order[i + 1..]));
    }
  }

  /** The document both players are saved in. */
  function BothSaved(p1: Mapping, p2: Mapping): Doc {
    Saved(Saved(NOTHING, "Player1", p1), "Player2", p2)
  }

  lemma BothAreWellFormed(p1: Mapping, p2: Mapping)
    ensures WellFormed(BothSaved(p1, p2))
  {
    hide PutKeys, WellFormed, DocOk, PlainDoc, KEYS;
    assert DocOk(NOTHING) && PlainDoc(NOTHING) by { NothingIsPlain(); }
    PlayersArePlain();
    PutKeysIsPlain(NOTHING, "Player1", p1, KEYS);
    PutKeysIsPlain(Saved(NOTHING, "Player1", p1), "Player2", p2, KEYS);
    PlainIsWellFormed(BothSaved(p1, p2));
  }

  lemma NothingIsPlain()
    ensures DocOk(NOTHING) && PlainDoc(NOTHING)
  {
  }

  lemma PlayersArePlain()
    ensures AllPlain("Player1") && AllPlain("Player2") && "Player1" != "Player2"
  {
    assert "Player1"[6] != "Player2"[6];
  }

  /** Both players' mappings are loaded from the saved text as they were saved,
      exactly if they are canonical, whatever the mappings held before. */
  lemma MappingsRoundTrip(p1: Mapping, p2: Mapping, q1: Mapping, q2: Mapping)
    ensures WellFormed(BothSaved(p1, p2))
    ensures var doc := Parsed(Dumped(BothSaved(p1, p2)));
      && (Loaded(doc, "Player1", q1) == p1 <==> Canonical(p1))
      && (Loaded(doc, "Player2", q2) == p2 <==> Canonical(p2))
  {
    hide SectionsOk, UnnamedFirst, Parsed, Dumped, Saved, Name, Value, Loaded, Canonical, DocOk, Doc.Get;
    BothAreWellFormed(p1, p2);
    PlayersArePlain();
    var saved := BothSaved(p1, p2);
    var doc := Parsed(Dumped(saved));
    forall k
      ensures doc.Get("Player1", Name(k)) == Some(Value(p1, k)) && doc.Get("Player2", Name(k)) == Some(Value(p2, k))
    {
      RoundTrip(saved, "Player1", Name(k));
      RoundTrip(saved, "Player2", Name(k));
      SavedGets(NOTHING, "Player1", p1, "Player1", k);
      SavedGets(Saved(NOTHING, "Player1", p1), "Player2", p2, "Player1", k);
      SavedGets(Saved(NOTHING, "Player1", p1), "Player2", p2, "Player2", k);
    }
    LoadedIsSaved(doc, "Player1", p1, q1);
    LoadedIsSaved(doc, "Player2", p2, q2);
  }

  // ----- the imperative form -----

  /** One `set` for every key, in their order. */
  method SavePlayer(doc: Document, section: string, m: Mapping)
    requires doc.Valid()
    modifies doc
    ensures doc.Valid() && doc.doc == Saved(old(doc.doc), section, m)
  {
    hide DocOk, Put, Name, Value;
    PutNoKeys(doc.doc, section, m);
    for n := 0 to |KEYS|
      invariant doc.Valid() && doc.doc == PutKeys(old(doc.doc), section, m, KEYS[..n])
    {
      assert KEYS[..n + 1][..n] == KEYS[..n];
      doc.Set(section, Name(KEYS[n]), Value(m, KEYS[n]));
    }
    assert KEYS[..|KEYS|] == KEYS;
  }

  lemma PutNoKeys(doc: Doc, section: string, m: Mapping)
    ensures PutKeys(doc, section, m, KEYS[..0]) == doc
  {
  }

  method LoadBinding(doc: Document, section: string, k: Key, current: InputBinding) returns (b: InputBinding)
    ensures b == GetBinding(doc.doc, section, k, current)
  {
    b := current;
    var v := doc.Get(section, Name(k));
    if v.Some? {
      b := ParseBinding(v.value);
    }
  }

  /** A mapping that is overwritten in place. */
  class ControllerMapping {
    var m: Mapping

    constructor (m: Mapping)
      ensures this.m == m
    {
      this.m := m;
    }

    method LoadBindings(doc: Document, section: string)
      modifies this
      ensures m == WithBindings(doc.doc, section, old(m))
    {
      hide GetBinding, Name, Doc.Get;
      var a := LoadBinding(doc, section, KeyA, m.a);
      m := m.(a := a);
      var b := LoadBinding(doc, section, KeyB, m.b);
      m := m.(b := b);
      var c := LoadBinding(doc, section, KeyC, m.c);
      m := m.(c := c);
      var d := LoadBinding(doc, section, KeyD, m.d);
      m := m.(d := d);
      var e := LoadBinding(doc, section, KeyE, m.e);
      m := m.(e := e);
      var ab := LoadBinding(doc, section, KeyAB, m.ab);
      m := m.(ab := ab);
      var start := LoadBinding(doc, section, Start, m.start);
      m := m.(start := start);
      var fn1 := LoadBinding(doc, section, Fn1, m.fn1);
      m := m.(fn1 := fn1);
      var fn2 := LoadBinding(doc, section, Fn2, m.fn2);
      m := m.(fn2 := fn2);
      var up := LoadBinding(doc, section, Up, m.up);
      m := m.(up := up);
      var down := LoadBinding(doc, section, Down, m.down);
      m := m.(down := down);
      var left := LoadBinding(doc, section, Left, m.left);
      m := m.(left := left);
      var right := LoadBinding(doc, section, Right, m.right);
      m := m.(right := right);
    }

    /** Overwrites what the document says, and only that. */
    method LoadPlayer(doc: Document, section: string)
      modifies this
      ensures m == Loaded(doc.doc, section, old(m))
    {
      hide GetInt, GetBinding, GetBool, Name, ToI32, SocdFrom, WithBindings;
      WithBindingsKeeps(doc.doc, section, m);
      LoadBindings(doc, section);
      m := m.(deviceIndex := ToI32(GetInt(doc.doc, section, Device, m.deviceIndex)));
      m := m.(stickXAxis := GetInt(doc.doc, section, StickX, m.stickXAxis) % 0x100);
      m := m.(stickYAxis := GetInt(doc.doc, section, StickY, m.stickYAxis) % 0x100);
      m := m.(deadzone := GetInt(doc.doc, section, Deadzone, m.deadzone) % 0x1_0000_0000);
      m := m.(socdMode := SocdFrom(GetInt(doc.doc, section, Socd, m.socdMode)));
      m := m.(airDashMacro := GetBool(doc.doc, section, AirDashMacro, m.airDashMacro));
      m := m.(jumpFrames := Clamp(GetInt(doc.doc, section, JumpFrames, m.jumpFrames), 1, 30));
      m := m.(prepFrames := Clamp(GetInt(doc.doc, section, PrepFrames, m.prepFrames), 0, 30));
      m := m.(pulseFrames := Clamp(GetInt(doc.doc, section, PulseFrames, m.pulseFrames), 1, 30));
    }
  }

  lemma WithBindingsKeeps(doc: Doc, s: string, m: Mapping)
    ensures WithBindings(doc, s, m) == WithBindings(doc, s, m).(
      deviceIndex := m.deviceIndex, stickXAxis := m.stickXAxis, stickYAxis := m.stickYAxis, deadzone := m.deadzone,
      socdMode := m.socdMode, airDashMacro := m.airDashMacro,
      jumpFrames := m.jumpFrames, prepFrames := m.prepFrames, pulseFrames := m.pulseFrames)
  {
    hide GetBinding;
  }

  /** The text written to the mapping file. */
  method SaveMapping(p1: Mapping, p2: Mapping) returns (text: string)
    ensures WellFormed(BothSaved(p1, p2)) && text == Dumped(BothSaved(p1, p2))
  {
    hide SectionsOk, UnnamedFirst, Dumped, Saved, DocOk;
    BothAreWellFormed(p1, p2);
    var doc := new Document();
    SavePlayer(doc, "Player1", p1);
    SavePlayer(doc, "Player2", p2);
    text := doc.Dump();
  }

  /** Loads both players from the text of the file, if there is one. */
  method LoadMapping(file: Option<string>, p1: ControllerMapping, p2: ControllerMapping) returns (ok: bool)
    requires p1 != p2
    modifies p1, p2
    ensures ok == file.Some?
    ensures p1.m == if ok then Loaded(Parsed(file.value), "Player1", old(p1.m)) else old(p1.m)
    ensures p2.m == if ok then Loaded(Parsed(file.value), "Player2", old(p2.m)) else old(p2.m)
  {
    hide Loaded, DocOk, Parsed;
    if file.None? {
      return false;
    }
    var doc := new Document();
    var parsed := doc.Parse(file.value);
    p1.LoadPlayer(doc, "Player1");
    p2.LoadPlayer(doc, "Player2");
    return parsed;
  }
}
