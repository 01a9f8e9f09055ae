/** What the text of a mapping file means, key by key and character by character. */
module MappingText {
  import opened Options
  import opened Words
  import opened Ini
  import opened Mapping

  // ----- numbers -----

  /** The value of digits by position. */
  function Decimal(digits: string): nat
    requires forall i :: 0 <= i < |digits| ==> '0' <= digits[i] <= '9'
  {
    if digits == "" then 0
    else
      assert forall i :: 0 <= i < |digits| - 1 ==> digits[..|digits| - 1][i] == digits[i];
      10 * Decimal(digits[..|digits| - 1]) + (digits[|digits| - 1] as int - 48)
  }

  predicate AllDigits10(s: string) {
    forall i :: 0 <= i < |s| ==> '0' <= s[i] <= '9'
  }

  lemma {:induction false} DecimalIs(s: string)
    requires AllDigits10(s)
    ensures (forall c :: c in s ==> IsDigit(c)) && NumberOf(s) == Decimal(s)
    decreases |s|
  {
    if s != "" {
      DecimalIs(s[..|s| - 1]);
    }
  }

  /** White space of the C locale: tab to carriage return, and blank. */
  predicate CSpace(s: string) {
    forall i :: 0 <= i < |s| ==> 9 <= s[i] as int <= 13 || s[i] as int == 32
  }

  lemma {:induction false} SpaceSkipped(w: string, s: string)
    requires CSpace(w) && (s != "" ==> !(9 <= s[0] as int <= 13 || s[0] as int == 32))
    ensures SkipSpace(w + s) == s
  {
    if w == "" {
      assert w + s == s;
    } else {
      assert (w + s)[1..] == w[1..] + s;
      SpaceSkipped(w[1..], s);
    }
  }

  lemma {:induction false} DigitsCounted(digits: string, rest: string)
    requires AllDigits10(digits) && (rest != "" ==> !('0' <= rest[0] <= '9'))
    ensures DigitCount(digits + rest) == |digits|
  {
    if digits == "" {
      assert digits + rest == rest;
    } else {
      assert (digits + rest)[1..] == digits[1..] + rest;
      DigitsCounted(digits[1..], rest);
    }
  }

  lemma DigitsRead(digits: string, rest: string)
    requires AllDigits10(digits) && (rest != "" ==> !('0' <= rest[0] <= '9'))
    ensures var u := digits + rest; var n := DigitCount(u);
      n == |digits| && NumberOf(u[..n]) == Decimal(digits)
  {
    hide DigitCount, NumberOf, Decimal;
    DigitsCounted(digits, rest);
    DecimalIs(digits);
    assert (digits + rest)[..|digits|] == digits;
  }

  lemma SignedRead(s: string, sign: string, u: string)
    requires sign == "" || sign == "-" || sign == "+"
    requires SkipSpace(s) == sign + u && (sign == "" && u != "" ==> u[0] != '-' && u[0] != '+')
    ensures var n := DigitCount(u); var m: int := NumberOf(u[..n]);
      ParseInt(s) == if n == 0 then None else Some(if sign == "-" then -m else m)
  {
    hide SkipSpace, DigitCount, NumberOf;
    assert sign == "" ==> sign + u == u;
    assert sign != "" ==> (sign + u)[1..] == u;
  }

  /** What is read of any text: white space, a sign, digits; what follows does not count. */
  lemma ReadsExactly(w: string, sign: string, digits: string, rest: string)
    requires CSpace(w) && (sign == "" || sign == "-" || sign == "+") && AllDigits10(digits)
    requires rest != "" ==> !('0' <= rest[0] <= '9')
    requires digits == "" && sign == "" && rest != "" ==>
      !(9 <= rest[0] as int <= 13 || rest[0] as int == 32) && rest[0] != '-' && rest[0] != '+'
    ensures var m: int := Decimal(digits);
      ParseInt(w + sign + digits + rest) == if digits == "" then None else if sign == "-" then Some(-m) else Some(m)
  {
    hide SkipSpace, DigitCount, NumberOf, Decimal, ParseInt;
    var u := digits + rest;
    assert w + sign + digits + rest == w + (sign + u);
    SpaceSkipped(w, sign + u);
    DigitsRead(digits, rest);
    SignedRead(w + sign + digits + rest, sign, u);
  }

  /** Numbers are printed in decimal, with a minus sign if negative. */
  lemma {:induction false} PrintsExactly(n: nat)
    ensures AllDigits10(Digits(n)) && Decimal(Digits(n)) == n && (Digits(n)[0] == '0' ==> n == 0)
    ensures ToString(n) == Digits(n) && (n > 0 ==> ToString(0 - n) == "-" + Digits(n))
  {
    if n < 10 {
      assert Digits(n)[..0] == "";
    } else {
      PrintsExactly(n / 10);
      assert Digits(n)[..|Digits(n)| - 1] == Digits(n / 10);
    }
  }

  /** A signed number is read if 64 bits hold it. */
  lemma SignedRange(n: int)
    ensures Stoll(ToString(n)) == if -9223372036854775808 <= n <= 9223372036854775807 then Some(n) else None
  {
    hide ParseInt, ToString;
    ParsePrinted(n);
  }

  /** An unsigned one if 32 bits hold its amount; a negative one counts from above. */
  lemma UnsignedRange(n: int)
    ensures Stoul(ToString(n)) ==
      if -4294967296 < n < 0 then Some(n + 4294967296) else if 0 <= n < 4294967296 then Some(n) else None
  {
    hide ParseInt, ToString;
    ParsePrinted(n);
  }

  // ----- bindings -----

  datatype Prefix = Prefix(text: string, kind: InputType)

  const PREFIXES: seq<Prefix> := [
    Prefix("btn", SdlButton), Prefix("axp", SdlAxisPos), Prefix("axn", SdlAxisNeg), Prefix("key", KeyboardKey)]

  /** A button, axis or key of any number n: the lower 16 bits of what 32 bits hold. */
  lemma PlainExactly(k: nat, n: int)
    requires k < 4
    ensures var p := PREFIXES[k];
      && (-4294967296 < n < 4294967296 ==> ParseBinding(p.text + ":" + ToString(n)) == InputBinding(p.kind, n % 65536))
      && (!(-4294967296 < n < 4294967296) ==> ParseBinding(p.text + ":" + ToString(n)) == InputBinding(NoInput, 0))
      && (0 <= n < 65536 ==> Serialize(InputBinding(p.kind, n)) == p.text + ":" + ToString(n))
  {
    hide ParseInt, ToString, ParseBinding, Stoul;
    UnsignedRange(n);
    ReadPrefixed(PREFIXES[k].text, ToString(n));
    SumMod(n);
    if n >= 0 {
      PrintsExactly(n);
      assert "btn" + ":" == "btn:" && "axp" + ":" == "axp:" && "axn" + ":" == "axn:" && "key" + ":" == "key:";
    }
  }

  lemma SumMod(n: int)
    ensures (n + 4294967296) % 65536 == n % 65536
  {
  }

  /** A hat: its number in the lower byte and its direction in the upper one. */
  lemma HatExactly(hat: nat, direction: nat)
    requires hat < 256 && direction < 256
    ensures Serialize(InputBinding(SdlHat, hat + 256 * direction)) == "hat:" + ToString(hat) + ":" + ToString(direction)
    ensures ParseBinding("hat:" + ToString(hat) + ":" + ToString(direction))
      == InputBinding(SdlHat, hat + 256 * direction)
  {
    hide Digits, ParseBinding;
    var b := InputBinding(SdlHat, hat + 256 * direction);
    assert HatIndex(b.index) == hat && HatDirection(b.index) == direction;
    BindingRoundTrip(b);
  }

  /** Everything else is no binding: no colon, another prefix, no number. */
  lemma UnboundExactly(prefix: string, rest: string)
    requires ':' !in prefix
    ensures ParseBinding(prefix) == InputBinding(NoInput, 0)
    ensures prefix != "btn" && prefix != "axp" && prefix != "axn" && prefix != "key" && prefix != "hat" ==>
      ParseBinding(prefix + ":" + rest) == InputBinding(NoInput, 0)
    ensures prefix != "hat" && Stoul(rest).None? ==> ParseBinding(prefix + ":" + rest) == InputBinding(NoInput, 0)
    ensures Serialize(InputBinding(NoInput, 0)) == "none"
  {
    hide Stoul, Find;
    assert prefix[..|prefix|] == prefix;
    FindIs(prefix, ':', |prefix|);
    SplitAtColon(prefix, rest);
  }

  // ----- what is saved -----

  /** Every field is saved under its name. */
  lemma SavedExactly(d: Doc, s: string, m: Mapping)
    ensures var r := Saved(d, s, m);
      && r.Get(s, "device") == Some(ToString(m.deviceIndex))
      && r.Get(s, "a") == Some(Serialize(m.a)) && r.Get(s, "b") == Some(Serialize(m.b))
      && r.Get(s, "c") == Some(Serialize(m.c)) && r.Get(s, "d") == Some(Serialize(m.d))
      && r.Get(s, "e") == Some(Serialize(m.e)) && r.Get(s, "ab") == Some(Serialize(m.ab))
      && r.Get(s, "start") == Some(Serialize(m.start)) && r.Get(s, "fn1") == Some(Serialize(m.fn1))
      && r.Get(s, "fn2") == Some(Serialize(m.fn2)) && r.Get(s, "up") == Some(Serialize(m.up))
      && r.Get(s, "down") == Some(Serialize(m.down)) && r.Get(s, "left") == Some(Serialize(m.left))
      && r.Get(s, "right") == Some(Serialize(m.right)) && r.Get(s, "stick_x") == Some(ToString(m.stickXAxis))
      && r.Get(s, "stick_y") == Some(ToString(m.stickYAxis)) && r.Get(s, "deadzone") == Some(ToString(m.deadzone))
      && r.Get(s, "socd") == Some(ToString(m.socdMode))
      && r.Get(s, "air_dash_macro") == Some(if m.airDashMacro then "1" else "0")
      && r.Get(s, "air_dash_jump_frames") == Some(ToString(m.jumpFrames))
      && r.Get(s, "air_dash_prep_frames") == Some(ToString(m.prepFrames))
      && r.Get(s, "air_dash_pulse_frames") == Some(ToString(m.pulseFrames))
  {
    hide Saved, ToString, Serialize, Doc.Get, Name, Value;
    Names();
    LongNames();
    Values(m);
    NumberValues(m);
    forall k ensures Saved(d, s, m).Get(s, Name(k)) == Some(Value(m, k)) {
      SavedGets(d, s, m, s, k);
    }
    var r := Saved(d, s, m);
    assert r.Get(s, Name(Device)) == Some(Value(m, Device));
    assert r.Get(s, Name(KeyA)) == Some(Value(m, KeyA)) && r.Get(s, Name(KeyB)) == Some(Value(m, KeyB));
    assert r.Get(s, Name(KeyC)) == Some(Value(m, KeyC)) && r.Get(s, Name(KeyD)) == Some(Value(m, KeyD));
    assert r.Get(s, Name(KeyE)) == Some(Value(m, KeyE)) && r.Get(s, Name(KeyAB)) == Some(Value(m, KeyAB));
    assert r.Get(s, Name(Start)) == Some(Value(m, Start)) && r.Get(s, Name(Fn1)) == Some(Value(m, Fn1));
    assert r.Get(s, Name(Fn2)) == Some(Value(m, Fn2)) && r.Get(s, Name(Up)) == Some(Value(m, Up));
    assert r.Get(s, Name(Down)) == Some(Value(m, Down)) && r.Get(s, Name(Left)) == Some(Value(m, Left));
    assert r.Get(s, Name(Right)) == Some(Value(m, Right));
  }

  lemma Names()
    ensures Name(KeyA) == "a" && Name(KeyB) == "b" && Name(KeyC) == "c" && Name(KeyD) == "d" && Name(KeyE) == "e"
    ensures Name(KeyAB) == "ab" && Name(Start) == "start" && Name(Fn1) == "fn1" && Name(Fn2) == "fn2"
    ensures Name(Up) == "up" && Name(Down) == "down" && Name(Left) == "left" && Name(Right) == "right"
  {
  }

  lemma Values(m: Mapping)
    ensures Value(m, KeyA) == Serialize(m.a) && Value(m, KeyB) == Serialize(m.b) && Value(m, KeyC) == Serialize(m.c)
    ensures Value(m, KeyD) == Serialize(m.d) && Value(m, KeyE) == Serialize(m.e) && Value(m, KeyAB) == Serialize(m.ab)
    ensures Value(m, Start) == Serialize(m.start) && Value(m, Fn1) == Serialize(m.fn1)
    ensures Value(m, Fn2) == Serialize(m.fn2) && Value(m, Up) == Serialize(m.up)
    ensures Value(m, Down) == Serialize(m.down) && Value(m, Left) == Serialize(m.left)
    ensures Value(m, Right) == Serialize(m.right)
  {
    hide ToString, Serialize;
  }

  lemma NumberValues(m: Mapping)
    ensures Value(m, StickX) == ToString(m.stickXAxis) && Value(m, StickY) == ToString(m.stickYAxis)
    ensures Value(m, Deadzone) == ToString(m.deadzone) && Value(m, Socd) == ToString(m.socdMode)
    ensures Value(m, AirDashMacro) == if m.airDashMacro then "1" else "0"
    ensures Value(m, JumpFrames) == ToString(m.jumpFrames) && Value(m, PrepFrames) == ToString(m.prepFrames)
    ensures Value(m, PulseFrames) == ToString(m.pulseFrames) && Value(m, Device) == ToString(m.deviceIndex)
  {
    hide ToString, Serialize;
  }

  // ----- what is loaded -----

  /** The number under a key, if it holds one that 64 bits can hold. */
  ghost predicate Says(d: Doc, s: string, key: string, n: int) {
    d.Get(s, key) == Some(ToString(n)) && -9223372036854775808 <= n <= 9223372036854775807
  }

  /** The frame counts: any number is taken to the nearest one in 1 to 30, 0 to 30 and
      1 to 30. */
  lemma FramesExactly(d: Doc, s: string, m: Mapping, n: int)
    ensures var l := Loaded(d, s, m);
      && (Says(d, s, "air_dash_jump_frames", n) ==>
            1 <= l.jumpFrames <= 30 && (n < 1 ==> l.jumpFrames == 1) && (n > 30 ==> l.jumpFrames == 30)
            && (1 <= n <= 30 ==> l.jumpFrames == n))
      && (Says(d, s, "air_dash_prep_frames", n) ==>
            0 <= l.prepFrames <= 30 && (n < 0 ==> l.prepFrames == 0) && (n > 30 ==> l.prepFrames == 30)
            && (0 <= n <= 30 ==> l.prepFrames == n))
      && (Says(d, s, "air_dash_pulse_frames", n) ==>
            1 <= l.pulseFrames <= 30 && (n < 1 ==> l.pulseFrames == 1) && (n > 30 ==> l.pulseFrames == 30)
            && (1 <= n <= 30 ==> l.pulseFrames == n))
  {
    hide ToString, ParseInt, Doc.Get, WithBindings, GetBool, Name, Stoll;
    SignedRange(n);
    LongNames();
  }

  lemma LongNames()
    ensures Name(JumpFrames) == "air_dash_jump_frames" && Name(PrepFrames) == "air_dash_prep_frames"
    ensures Name(PulseFrames) == "air_dash_pulse_frames" && Name(AirDashMacro) == "air_dash_macro"
    ensures Name(StickX) == "stick_x" && Name(StickY) == "stick_y" && Name(Deadzone) == "deadzone"
    ensures Name(Device) == "device" && Name(Socd) == "socd"
  {
  }

  /** The other numbers are cut to the width of their field; a SOCD mode of 0 in 32 bits
      is taken as 1. */
  lemma NumbersExactly(d: Doc, s: string, m: Mapping, n: int)
    ensures var l := Loaded(d, s, m);
      && (Says(d, s, "device", n) ==>
            (l.deviceIndex - n) % 4294967296 == 0 && -2147483648 <= l.deviceIndex <= 2147483647)
      && (Says(d, s, "stick_x", n) ==> (l.stickXAxis - n) % 256 == 0 && l.stickXAxis <= 255)
      && (Says(d, s, "stick_y", n) ==> (l.stickYAxis - n) % 256 == 0 && l.stickYAxis <= 255)
      && (Says(d, s, "deadzone", n) ==> (l.deadzone - n) % 4294967296 == 0 && l.deadzone <= 4294967295)
      && (Says(d, s, "socd", n) ==>
            if n % 4294967296 == 0 then l.socdMode == 1 else (l.socdMode - n) % 256 == 0 && l.socdMode <= 255)
  {
    hide ToString, ParseInt, Doc.Get, WithBindings, GetBool, Clamp, ToI32, SocdFrom, Name, GetInt;
    LongNames();
    SaidNumber(d, s, Device, n, m.deviceIndex);
    SaidNumber(d, s, StickX, n, m.stickXAxis);
    SaidNumber(d, s, StickY, n, m.stickYAxis);
    SaidNumber(d, s, Deadzone, n, m.deadzone);
    SaidNumber(d, s, Socd, n, m.socdMode);
    ToI32Is(n);
    SocdIs(n);
    SameResidue(n, 256);
    SameResidue(n, 4294967296);
  }

  lemma SaidNumber(d: Doc, s: string, k: Key, n: int, before: int)
    ensures Says(d, s, Name(k), n) ==> GetInt(d, s, k, before) == n
  {
    hide ToString, ParseInt, Name, Stoll;
    SignedRange(n);
  }

  lemma SameResidue(n: int, m: nat)
    requires m > 0
    ensures (n % m - n) % m == 0
  {
    var q := n / m;
    assert n % m - n == m * (-q);
    MultipleOf(m, -q);
  }

  lemma MultipleOf(m: nat, q: int)
    requires m > 0
    ensures m * q % m == 0
  {
    ModUnique(m * q, m, q, 0);
  }

  lemma ToI32Is(n: int)
    ensures (ToI32(n) - n) % 4294967296 == 0
    ensures ToI32(n) == 0 <==> n % 4294967296 == 0
  {
  }

  lemma SocdIs(n: int)
    ensures if n % 4294967296 == 0 then SocdFrom(n) == 1 else (SocdFrom(n) - n) % 256 == 0
  {
    hide ToI32;
    ToI32Is(n);
    var q, x := (ToI32(n) - n) / 4294967296, ToI32(n);
    assert x - n == 4294967296 * q == 256 * (16777216 * q);
    var r := x / 256;
    assert x % 256 - n == 256 * (16777216 * q - r);
  }

  /** The binding under a key. */
  lemma BindingsExactly(d: Doc, s: string, m: Mapping)
    ensures var l := Loaded(d, s, m);
      && l.a == Bound(d, s, "a", m.a) && l.b == Bound(d, s, "b", m.b) && l.c == Bound(d, s, "c", m.c)
      && l.d == Bound(d, s, "d", m.d) && l.e == Bound(d, s, "e", m.e) && l.ab == Bound(d, s, "ab", m.ab)
      && l.start == Bound(d, s, "start", m.start) && l.fn1 == Bound(d, s, "fn1", m.fn1)
      && l.fn2 == Bound(d, s, "fn2", m.fn2) && l.up == Bound(d, s, "up", m.up)
      && l.down == Bound(d, s, "down", m.down) && l.left == Bound(d, s, "left", m.left)
      && l.right == Bound(d, s, "right", m.right)
  {
    hide Doc.Get, ParseBinding, GetInt, GetBool, Name;
    Names();
  }

  function Bound(d: Doc, s: string, key: string, before: InputBinding): InputBinding {
    match d.Get(s, key)
    case None => before
    case Some(text) => ParseBinding(text)
  }

  predicate SaysYes(word: string) { word == "true" || word == "1" || word == "yes" || word == "on" }

  predicate SaysNo(word: string) { word == "false" || word == "0" || word == "no" || word == "off" }

  /** The switch of the macro understands four words each way, in any case; anything else
      leaves it as it was. */
  lemma SwitchExactly(d: Doc, s: string, m: Mapping, text: string, word: string)
    requires d.Get(s, "air_dash_macro") == Some(text) && SameLetters(text, word)
    ensures Loaded(d, s, m).airDashMacro ==
      if SaysYes(word) then true else if SaysNo(word) then false else m.airDashMacro
  {
    hide Doc.Get, WithBindings, GetInt, Lower;
    LongNames();
    assert Lower(text) == word by { LowerIs(text, word); }
  }

  /** The lower-case form of a text, letter by letter. */
  ghost predicate SameLetters(text: string, word: string) {
    |text| == |word| && forall i :: 0 <= i < |text| ==>
      if 65 <= text[i] as int <= 90 then word[i] as int == text[i] as int + 32 else word[i] == text[i]
  }

  lemma LowerIs(text: string, word: string)
    requires SameLetters(text, word)
    ensures Lower(text) == word
  {
  }

  /** A field whose key is absent, or holds no number, keeps its value; frame counts
      and the SOCD mode are brought into range all the same. */
  lemma AbsentKeeps(d: Doc, s: string, m: Mapping)
    ensures var l := Loaded(d, s, m);
      && (Nothing(d, s, "device") ==> l.deviceIndex == m.deviceIndex)
      && (Nothing(d, s, "stick_x") ==> l.stickXAxis == m.stickXAxis)
      && (Nothing(d, s, "stick_y") ==> l.stickYAxis == m.stickYAxis)
      && (Nothing(d, s, "deadzone") ==> l.deadzone == m.deadzone)
      && (Nothing(d, s, "socd") ==> l.socdMode == if m.socdMode == 0 then 1 else m.socdMode)
      && (d.Get(s, "air_dash_macro") == None ==> l.airDashMacro == m.airDashMacro)
      && (Nothing(d, s, "air_dash_jump_frames") && 1 <= m.jumpFrames <= 30 ==> l.jumpFrames == m.jumpFrames)
      && (Nothing(d, s, "air_dash_prep_frames") && m.prepFrames <= 30 ==> l.prepFrames == m.prepFrames)
      && (Nothing(d, s, "air_dash_pulse_frames") && 1 <= m.pulseFrames <= 30 ==> l.pulseFrames == m.pulseFrames)
  {
    hide Doc.Get, WithBindings, Stoll, Name;
    LongNames();
  }

  ghost predicate Nothing(d: Doc, s: string, key: string) {
    match d.Get(s, key)
    case None => true
    case Some(text) => Stoll(text) == None
  }
}
