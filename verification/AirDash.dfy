/** The air-dash macro: a transducer that turns a held 9AB or 7AB into a jump of
    `jumpFrames` frames followed by one frame of air dash. An input word holds the
    numpad direction in its low four bits and the button mask above them. */
module AirDash {
  import Words

  const A: bv16 := 0x0010
  const B: bv16 := 0x0020
  const AB: bv16 := 0x0040
  const AB_COMBINED: bv16 := 0x0700

  datatype StepResult = StepResult(output: bv16, triggered: bool)

  function Direction(raw: bv16): bv16 { raw & 0x000F }

  function Buttons(raw: bv16): bv16 { (raw >> 4) & 0x0FFF }

  /** A jump direction with AB, or with A and B together, and no other button. */
  predicate IsTrigger(raw: bv16) {
    && (Direction(raw) == 9 || Direction(raw) == 7)
    && (Buttons(raw) & AB != 0 || Buttons(raw) & (A | B) == A | B)
    && Buttons(raw) & !(A | B | AB) == 0
  }

  function DashFor(dir: bv16): bv16 {
    if dir == 9 then 6 else if dir == 7 then 4 else 0
  }

  class AirDashMacro {
    var enabled: bool
    var jumpFrames: nat
    var jumpCountdown: nat
    var jumpDir: bv16

    ghost predicate Valid()
      reads this
    {
      && 1 <= jumpFrames <= 255 && jumpCountdown <= 255
      && (if jumpCountdown > 0 then jumpDir == 9 || jumpDir == 7 else jumpDir == 0)
    }

    constructor ()
      ensures Valid() && !enabled && jumpFrames == 6 && jumpCountdown == 0
    {
      enabled, jumpFrames, jumpCountdown, jumpDir := false, 6, 0, 0;
    }

    method SetJumpFrames(frames: nat)
      requires Valid() && frames <= 255
      modifies `jumpFrames
      ensures Valid() && jumpFrames == if frames < 1 then 1 else frames
    {
      jumpFrames := if frames < 1 then 1 else frames;
    }

    method Reset()
      requires 1 <= jumpFrames <= 255
      modifies `jumpCountdown, `jumpDir
      ensures Valid() && jumpCountdown == 0
    {
      jumpCountdown, jumpDir := 0, 0;
    }

    method Step(raw: bv16) returns (r: StepResult)
      requires Valid()
      modifies `jumpCountdown, `jumpDir
      ensures Valid()
      ensures !enabled ==> r == StepResult(raw, false) && unchanged(this)
      ensures enabled ==>
        (State(jumpCountdown, jumpDir), r) == Next(jumpFrames, State(old(jumpCountdown), old(jumpDir)), raw)
    {
      if !enabled {
        return StepResult(raw, false);
      }
      var dir := raw & 0x000F;
      var btns := (raw >> 4) & 0x0FFF;
      var hasAb := btns & AB != 0 || btns & (A | B) == A | B;
      if jumpCountdown > 0 {
        jumpCountdown := jumpCountdown - 1;
        if jumpCountdown > 0 {
          return StepResult(jumpDir, false);
        }
        var dashDir := DashFor(jumpDir);
        jumpDir := 0;
        return StepResult(dashDir | AB_COMBINED, false);
      }
      var otherButtons := btns & !(A | B | AB);
      if hasAb && (dir == 9 || dir == 7) && otherButtons == 0 {
        jumpDir := dir;
        jumpCountdown := jumpFrames;
        return StepResult(dir, true);
      }
      r := StepResult(raw, false);
    }

    /** Feeds a whole input stream to an enabled macro. */
    method Transduce(inputs: seq<bv16>) returns (outputs: seq<StepResult>)
      requires Valid() && enabled
      modifies `jumpCountdown, `jumpDir
      ensures Valid()
      ensures outputs == Run(jumpFrames, State(old(jumpCountdown), old(jumpDir)), inputs)
    {
      outputs := [];
      for i := 0 to |inputs|
        invariant Valid()
        invariant outputs + Run(jumpFrames, State(jumpCountdown, jumpDir), inputs[i..])
          == Run(jumpFrames, State(old(jumpCountdown), old(jumpDir)), inputs)
      {
        var r := Step(inputs[i]);
        assert inputs[i..][1..] == inputs[i + 1..];
        outputs := outputs + [r];
      }
    }
  }

  // ----- the transducer -----

  /** Frames left in the jump and its direction; idle when none are left. */
  datatype State = State(countdown: nat, dir: bv16)

  const IDLE: State := State(0, 0)

  function Next(k: nat, s: State, raw: bv16): (State, StepResult) {
    if s.countdown > 1 then (State(s.countdown - 1, s.dir), StepResult(s.dir, false))
    else if s.countdown == 1 then (IDLE, StepResult(DashFor(s.dir) | AB_COMBINED, false))
    else if IsTrigger(raw) then (State(k, Direction(raw)), StepResult(Direction(raw), true))
    else (s, StepResult(raw, false))
  }

  function Run(k: nat, s: State, inputs: seq<bv16>): (outputs: seq<StepResult>)
    ensures |outputs| == |inputs|
    decreases |inputs|
  {
    if inputs == [] then []
    else
      var (s', r) := Next(k, s, inputs[0]);
      [r] + Run(k, s', inputs[1..])
  }

  // ----- the grammar of its output -----

  /** The last c frames of a burst: the bare jump direction, then the dash. */
  function BurstTail(c: nat, dir: bv16): (b: seq<StepResult>)
    requires c >= 1
    ensures |b| == c
  {
    seq(c - 1, _ => StepResult(dir, false)) + [StepResult(DashFor(dir) | AB_COMBINED, false)]
  }

  /** k frames of the bare jump direction, the first marked, then the dash. */
  function Burst(k: nat, dir: bv16): (b: seq<StepResult>)
    requires k >= 1
    ensures |b| == k + 1
  {
    [StepResult(dir, true)] + BurstTail(k, dir)
  }

  function Min(a: nat, b: nat): nat { if a <= b then a else b }

  /** The outputs are raw frames and bursts, the last burst possibly cut short. */
  ghost predicate Parses(k: nat, inputs: seq<bv16>, outputs: seq<StepResult>)
    requires k >= 1
    decreases |inputs|
  {
    && |outputs| == |inputs|
    && (inputs != [] ==>
          if IsTrigger(inputs[0]) then
            var n := Min(k + 1, |inputs|);
            outputs[..n] == Burst(k, Direction(inputs[0]))[..n] && Parses(k, inputs[n..], outputs[n..])
          else
            outputs[0] == StepResult(inputs[0], false) && Parses(k, inputs[1..], outputs[1..]))
  }

  lemma RunStep(k: nat, s: State, inputs: seq<bv16>, s': State, r: StepResult)
    requires inputs != [] && Next(k, s, inputs[0]) == (s', r)
    ensures Run(k, s, inputs) == [r] + Run(k, s', inputs[1..])
  {
    hide Next;
  }

  lemma TailStep(c: nat, n: nat, dir: bv16)
    requires 1 < c && n < c
    ensures BurstTail(c, dir)[..n + 1] == [StepResult(dir, false)] + BurstTail(c - 1, dir)[..n]
  {
    hide DashFor;
  }

  /** From inside a burst with `c` frames to go, the run finishes the burst and goes on
      from idle. */
  lemma {:induction false} RunFinishesBurst(k: nat, c: nat, dir: bv16, inputs: seq<bv16>)
    requires 1 <= c <= k
    ensures var n := Min(c, |inputs|);
      Run(k, State(c, dir), inputs) == BurstTail(c, dir)[..n] + Run(k, IDLE, inputs[n..])
    decreases c
  {
    hide Run, BurstTail, DashFor;
    if inputs == [] {
      RunNothing(k, State(c, dir));
      RunNothing(k, IDLE);
    } else if c == 1 {
      RunStep(k, State(1, dir), inputs, IDLE, StepResult(DashFor(dir) | AB_COMBINED, false));
      LastFrame(dir);
    } else {
      RunStep(k, State(c, dir), inputs, State(c - 1, dir), StepResult(dir, false));
      RunFinishesBurst(k, c - 1, dir, inputs[1..]);
      var n := Min(c - 1, |inputs| - 1);
      TailStep(c, n, dir);
      assert inputs[1..][n..] == inputs[n + 1..];
    }
  }

  lemma RunNothing(k: nat, s: State)
    ensures Run(k, s, []) == []
  {
  }

  lemma LastFrame(dir: bv16)
    ensures BurstTail(1, dir)[..1] == [StepResult(DashFor(dir) | AB_COMBINED, false)]
  {
    hide DashFor;
  }

  lemma RunStartsBurst(k: nat, inputs: seq<bv16>)
    requires k >= 1 && inputs != [] && IsTrigger(inputs[0])
    ensures var n := Min(k + 1, |inputs|);
      Run(k, IDLE, inputs) == Burst(k, Direction(inputs[0]))[..n] + Run(k, IDLE, inputs[n..])
  {
    hide Run, BurstTail, IsTrigger, Direction;
    var dir := Direction(inputs[0]);
    var n := Min(k, |inputs| - 1);
    RunStep(k, IDLE, inputs, State(k, dir), StepResult(dir, true));
    RunFinishesBurst(k, k, dir, inputs[1..]);
    assert Burst(k, dir)[..n + 1] == [StepResult(dir, true)] + BurstTail(k, dir)[..n];
    assert inputs[1..][n..] == inputs[n + 1..];
  }

  /** The whole-run grammar: from idle, the macro's output on a stream is the one and
      only sequence that parses against it. */
  lemma {:induction false} RunIsTheParse(k: nat, inputs: seq<bv16>, outputs: seq<StepResult>)
    requires k >= 1
    ensures Parses(k, inputs, outputs) <==> outputs == Run(k, IDLE, inputs)
    decreases |inputs|
  {
    var run := Run(k, IDLE, inputs);
    if |outputs| == |inputs| && inputs != [] {
      if IsTrigger(inputs[0]) {
        var n := Min(k + 1, |inputs|);
        RunStartsBurst(k, inputs);
        RunIsTheParse(k, inputs[n..], outputs[n..]);
        assert outputs == outputs[..n] + outputs[n..];
        assert run[..n] == Burst(k, Direction(inputs[0]))[..n] && run[n..] == Run(k, IDLE, inputs[n..]);
      } else {
        RunIsTheParse(k, inputs[1..], outputs[1..]);
        assert outputs == [outputs[0]] + outputs[1..];
      }
    }
  }

  /** A burst is k button-free frames of 7 or 9, then 4 or 6 with A, B and AB. */
  lemma BurstShape(k: nat, raw: bv16, i: nat)
    requires k >= 1 && IsTrigger(raw) && i <= k
    ensures var r := Burst(k, Direction(raw))[i];
      && (i < k ==> Buttons(r.output) == 0 && Direction(r.output) == Direction(raw) && r.triggered == (i == 0))
      && (i == k ==> !r.triggered && Buttons(r.output) == A | B | AB)
      && (i == k ==> Direction(r.output) == if Direction(raw) == 9 then 6 else 4)
  {
  }

  /** Burst starts are at least k + 1 frames apart. */
  lemma {:induction false} TriggersAreApart(k: nat, inputs: seq<bv16>, i: nat, j: nat)
    requires k >= 1 && i < j < |inputs|
    requires Run(k, IDLE, inputs)[i].triggered && Run(k, IDLE, inputs)[j].triggered
    ensures j - i >= k + 1
    decreases |inputs|
  {
    var run := Run(k, IDLE, inputs);
    if IsTrigger(inputs[0]) {
      var n := Min(k + 1, |inputs|);
      RunStartsBurst(k, inputs);
      var dir := Direction(inputs[0]);
      assert forall t :: 0 < t < n ==> run[t] == Burst(k, dir)[t] && !run[t].triggered;
      if i >= n {
        TriggersAreApart(k, inputs[n..], i - n, j - n);
      }
    } else {
      assert !run[0].triggered;
      TriggersAreApart(k, inputs[1..], i - 1, j - 1);
    }
  }

  /** Holding the trigger repeats the burst with period k + 1. */
  lemma {:induction false} HoldingRepeats(k: nat, raw: bv16, inputs: seq<bv16>, t: nat)
    requires k >= 1 && IsTrigger(raw) && t < |inputs|
    requires forall x <- inputs :: x == raw
    ensures Run(k, IDLE, inputs)[t] == Burst(k, Direction(raw))[t % (k + 1)]
    decreases t
  {
    var n := Min(k + 1, |inputs|);
    assert inputs[0] in inputs;
    RunStartsBurst(k, inputs);
    if t >= n {
      assert n == k + 1;
      assert forall x <- inputs[n..] :: x in inputs;
      HoldingRepeats(k, raw, inputs[n..], t - n);
      ModShift(t, k + 1);
    } else {
      SmallMod(t, k + 1);
    }
  }

  lemma SmallMod(t: nat, m: nat)
    requires t < m
    ensures t % m == t
  {
  }

  lemma ModShift(t: nat, m: nat)
    requires 0 < m <= t
    ensures t % m == (t - m) % m
  {
    var q, r := (t - m) / m, (t - m) % m;
    assert t == m * (q + 1) + r;
    Words.ModUnique(t, m, q + 1, r);
  }

  // ----- the words themselves -----

  /** Exactly ten input words start a burst: 7 or 9 with A and B, with AB, or with AB and
      any of the two. */
  lemma TriggersExactly(raw: bv16)
    ensures IsTrigger(raw) <==>
      raw in {0x307, 0x309, 0x407, 0x409, 0x507, 0x509, 0x607, 0x609, 0x707, 0x709}
  {
  }

  /** A whole burst from idle, word by word. */
  lemma BurstWords(k: nat, raw: bv16)
    requires k >= 1 && IsTrigger(raw)
    ensures Direction(raw) == if raw in {0x307, 0x407, 0x507, 0x607, 0x707} then 7 else 9
    ensures var b := Burst(k, Direction(raw));
      && b[k] == StepResult(if Direction(raw) == 7 then 0x704 else 0x706, false)
      && forall i :: 0 <= i < k ==> b[i] == StepResult(Direction(raw), i == 0)
  {
    TriggersExactly(raw);
  }
}
