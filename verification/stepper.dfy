/**
  The stepper phase sequencer: a background thread that switches the four
  PWM channels of timer 3 off once and then walks a fixed table of
  single-channel duty writes forever, sleeping one millisecond between most
  of them (half-step drive). The thread is modelled as a sequence of write
  and sleep markers applied to a four-channel duty state; timing is not
  modelled, a sleep is only the point at which the outputs are observed.
 */
module Stepper {

  /** Full-on duty value. */
  const PWM_MAX: int := 128

  /** Counting period the PWM timer is configured with (src/main.c:143):
      `PWM_MAX` ticks, so a duty of `PWM_MAX` keeps the output on all period. */
  const PWM_PERIOD: int := PWM_MAX

  /** Timer channel indices of the four windings. */
  const STEPPER_BLUE: int := 0
  const STEPPER_PINK: int := 1
  const STEPPER_YELLOW: int := 2
  const STEPPER_ORANGE: int := 3

  /** The four windings, named after their wire colours. */
  datatype Phase = Blue | Pink | Yellow | Orange

  const AllPhases: set<Phase> := {Blue, Pink, Yellow, Orange}

  /** The timer channel that drives each winding. */
  function Channel(p: Phase): ChannelIndex
  {
    match p
    case Blue => STEPPER_BLUE
    case Pink => STEPPER_PINK
    case Yellow => STEPPER_YELLOW
    case Orange => STEPPER_ORANGE
  }

  /** The winding a channel index drives. */
  function PhaseOf(c: ChannelIndex): (p: Phase)
    ensures Channel(p) == c
  {
    if c == STEPPER_BLUE then Blue
    else if c == STEPPER_PINK then Pink
    else if c == STEPPER_YELLOW then Yellow
    else Orange
  }

  /** The channel mapping is one-to-one onto 0..3. */
  lemma ChannelBijection(p: Phase, q: Phase)
    ensures PhaseOf(Channel(p)) == p
    ensures Channel(p) == Channel(q) ==> p == q
  {
  }

  /** The duty value currently programmed on each of the four channels. */
  datatype Duties = Duties(blue: int, pink: int, yellow: int, orange: int)
  {
    /** The duty on channel `c`. */
    function Level(c: ChannelIndex): int
    {
      if c == STEPPER_BLUE then blue
      else if c == STEPPER_PINK then pink
      else if c == STEPPER_YELLOW then yellow
      else orange
    }

    /** The state after programming duty `v` on channel `c`. */
    function With(c: ChannelIndex, v: int): Duties
    {
      if c == STEPPER_BLUE then this.(blue := v)
      else if c == STEPPER_PINK then this.(pink := v)
      else if c == STEPPER_YELLOW then this.(yellow := v)
      else this.(orange := v)
    }
  }

  /** A channel index of the timer: the driver accepts only 0..3. */
  type ChannelIndex = c: int | 0 <= c < 4

  /** One step of the thread: a `pwmEnableChannel(channel, duty)` call, or a sleep. */
  datatype Op = Write(channel: ChannelIndex, duty: int) | Sleep

  /** A write of one of the two levels the sequencer uses: off or fully on. */
  predicate OnOffWrite(op: Op)
  {
    op.Write? ==> op.duty == 0 || op.duty == PWM_MAX
  }

  /** The four writes that switch every channel off before the loop starts. */
  const InitWrites: seq<Op> := [Write(0, 0), Write(1, 0), Write(2, 0), Write(3, 0)]

  /** A write followed by the one-millisecond sleep. */
  function Step(c: ChannelIndex, duty: int): seq<Op>
  {
    [Write(c, duty), Sleep]
  }

  /** One iteration of the endless loop: nine writes and eight sleeps. The
      last write (blue off) is followed directly, without a sleep, by the
      first write of the next iteration (orange on). */
  const LoopBody: seq<Op> :=
      Step(STEPPER_ORANGE, PWM_MAX)
    + Step(STEPPER_YELLOW, PWM_MAX)
    + Step(STEPPER_ORANGE, 0)
    + Step(STEPPER_PINK, PWM_MAX)
    + Step(STEPPER_YELLOW, 0)
    + Step(STEPPER_BLUE, PWM_MAX)
    + Step(STEPPER_PINK, 0)
    + Step(STEPPER_ORANGE, PWM_MAX)
    + [Write(STEPPER_BLUE, 0)]

  /** `s` repeated `n` times. */
  function Repeat<T>(s: seq<T>, n: nat): (r: seq<T>)
    ensures |r| == n * |s|
  {
    if n == 0 then [] else Repeat(s, n - 1) + s
  }

  /** Everything the thread does up to the end of its `n`-th loop iteration. */
  function Trace(n: nat): seq<Op>
  {
    InitWrites + Repeat(LoopBody, n)
  }

  /** The effect of one step on the duty state. */
  function Apply(d: Duties, op: Op): Duties
  {
    if op.Sleep? then d else d.With(op.channel, op.duty)
  }

  /** The duty state after running `ops` from `d`. */
  function Run(d: Duties, ops: seq<Op>): Duties
    decreases |ops|
  {
    if |ops| == 0 then d else Run(Apply(d, ops[0]), ops[1..])
  }

  /** The duty state observed at each sleep of `ops`, started from `d`. */
  function Samples(d: Duties, ops: seq<Op>): seq<Duties>
    decreases |ops|
  {
    if |ops| == 0 then []
    else (if ops[0].Sleep? then [d] else []) + Samples(Apply(d, ops[0]), ops[1..])
  }

  /** The windings whose channel is driven at `PWM_MAX`. */
  function Energized(d: Duties): set<Phase>
  {
    set p | p in AllPhases && d.Level(Channel(p)) == PWM_MAX
  }

  /** The windings whose duty differs between two states. */
  function Changed(a: Duties, b: Duties): set<Phase>
  {
    set p | p in AllPhases && a.Level(Channel(p)) != b.Level(Channel(p))
  }

  /** Every channel is either off or fully on. */
  predicate OnOff(d: Duties)
  {
    forall c :: 0 <= c < 4 ==> d.Level(c) == 0 || d.Level(c) == PWM_MAX
  }

  /** The on/off state that energizes exactly the windings `e`. */
  function DutiesOf(e: set<Phase>): Duties
  {
    Duties(if Blue in e then PWM_MAX else 0,
           if Pink in e then PWM_MAX else 0,
           if Yellow in e then PWM_MAX else 0,
           if Orange in e then PWM_MAX else 0)
  }

  const AllOff: Duties := Duties(0, 0, 0, 0)

  /** The state at the end of every loop iteration: only orange on. */
  const OnlyOrange: Duties := Duties(0, 0, 0, PWM_MAX)

  /** The windings energized at the eight sleeps of one loop iteration. */
  const HalfStepCycle: seq<set<Phase>> := [
    {Orange}, {Orange, Yellow}, {Yellow}, {Yellow, Pink},
    {Pink}, {Pink, Blue}, {Blue}, {Blue, Orange}
  ]

  /** The duty states at the eight sleeps of one loop iteration. */
  const HalfStepTable: seq<Duties> := [
    Duties(0, 0, 0, PWM_MAX), Duties(0, 0, PWM_MAX, PWM_MAX),
    Duties(0, 0, PWM_MAX, 0), Duties(0, PWM_MAX, PWM_MAX, 0),
    Duties(0, PWM_MAX, 0, 0), Duties(PWM_MAX, PWM_MAX, 0, 0),
    Duties(PWM_MAX, 0, 0, 0), Duties(PWM_MAX, 0, 0, PWM_MAX)
  ]

  /** Consecutive states of `s` differ in exactly one winding. */
  predicate OneChangeEach(s: seq<Duties>)
  {
    forall i :: 0 <= i < |s| - 1 ==> |Changed(s[i], s[i + 1])| == 1
  }

  /** The energized windings at each of a run of samples. */
  function EnergizedTrace(s: seq<Duties>): (r: seq<set<Phase>>)
    ensures |r| == |s|
    ensures forall i :: 0 <= i < |s| ==> r[i] == Energized(s[i])
  {
    if |s| == 0 then [] else EnergizedTrace(s[..|s| - 1]) + [Energized(s[|s| - 1])]
  }

  // ----- On/off states and energized sets -----

  lemma InAllPhases(p: Phase)
    ensures p in AllPhases
  {
  }

  /** Building a state from a set of windings and reading its energized set back gives the set. */
  lemma EnergizedDutiesOf(e: set<Phase>)
    ensures OnOff(DutiesOf(e))
    ensures Energized(DutiesOf(e)) == e
  {
    var d := DutiesOf(e);
    forall p | p in e ensures p in Energized(d) {
      InAllPhases(p);
    }
  }

  /** Between two on/off states the changed windings are the symmetric difference of their energized sets. */
  lemma ChangedDutiesOf(e1: set<Phase>, e2: set<Phase>)
    ensures Changed(DutiesOf(e1), DutiesOf(e2)) == (e1 - e2) + (e2 - e1)
  {
    var a, b := DutiesOf(e1), DutiesOf(e2);
    forall p | p in (e1 - e2) + (e2 - e1) ensures p in Changed(a, b) {
      InAllPhases(p);
    }
  }

  // ----- Running the write table -----

  lemma {:induction false} RunConcat(d: Duties, a: seq<Op>, b: seq<Op>)
    ensures Run(d, a + b) == Run(Run(d, a), b)
    ensures Samples(d, a + b) == Samples(d, a) + Samples(Run(d, a), b)
    decreases |a|
  {
    assert forall i :: 0 <= i < |a + b| ==> (a + b)[i] == if i < |a| then a[i] else b[i - |a|];
    if |a| == 0 {
      assert a + b == b;
    } else {
      assert (a + b)[1..] == a[1..] + b;
      RunConcat(Apply(d, a[0]), a[1..], b);
    }
  }

  lemma {:induction false} RepeatElements<T>(s: seq<T>, n: nat)
    ensures forall x :: x in Repeat(s, n) ==> x in s
  {
    if n > 0 {
      RepeatElements(s, n - 1);
    }
  }

  lemma RepeatLast<T>(s: seq<T>, n: nat)
    requires n > 0 && |s| > 0
    ensures Repeat(s, n)[|Repeat(s, n)| - 1] == s[|s| - 1]
  {
  }

  /** Every step of the thread writes a channel in 0..3 with duty 0 or
      `PWM_MAX`; as `PWM_MAX` is the PWM period, each write is off or fully on. */
  lemma TraceWritesOnOff(n: nat)
    ensures forall op :: op in Trace(n) ==> OnOffWrite(op)
  {
    RepeatElements(LoopBody, n);
    forall op | op in Trace(n) ensures OnOffWrite(op) {
      assert op in InitWrites || op in Repeat(LoopBody, n);
    }
  }

  /** Whatever the channels held before, the initial writes leave all four off,
      and no sleep happens before they are done. */
  lemma InitAllOff(d: Duties)
    ensures Run(d, InitWrites) == AllOff
    ensures Samples(d, InitWrites) == []
  {
  }

  /** A step programs its channel and then shows the new state at its sleep. */
  lemma StepEffect(d: Duties, c: ChannelIndex, duty: int)
    ensures Run(d, Step(c, duty)) == d.With(c, duty)
    ensures Samples(d, Step(c, duty)) == [d.With(c, duty)]
  {
    assert Step(c, duty)[1..] == [Sleep];
    assert [Sleep][1..] == [];
    assert Samples(d.With(c, duty), [Sleep]) == [d.With(c, duty)];
  }

  /** One loop iteration, started with blue, pink and yellow off (in particular
      from all-off or from only-orange), passes through the eight half-step
      states and ends with only orange on. */
  lemma OneIteration(d: Duties)
    requires d.blue == 0 && d.pink == 0 && d.yellow == 0
    ensures Run(d, LoopBody) == OnlyOrange
    ensures Samples(d, LoopBody) == HalfStepTable
  {
    // The prefixes of the loop body ending at each of its eight sleeps.
    var p1 := Step(STEPPER_ORANGE, PWM_MAX);
    var p2 := p1 + Step(STEPPER_YELLOW, PWM_MAX);
    var p3 := p2 + Step(STEPPER_ORANGE, 0);
    var p4 := p3 + Step(STEPPER_PINK, PWM_MAX);
    var p5 := p4 + Step(STEPPER_YELLOW, 0);
    var p6 := p5 + Step(STEPPER_BLUE, PWM_MAX);
    var p7 := p6 + Step(STEPPER_PINK, 0);
    var p8 := p7 + Step(STEPPER_ORANGE, PWM_MAX);
    assert LoopBody == p8 + [Write(STEPPER_BLUE, 0)];

    StepEffect(d, STEPPER_ORANGE, PWM_MAX);
    assert Run(d, p1) == HalfStepTable[0] && Samples(d, p1) == HalfStepTable[..1];
    StepEffect(HalfStepTable[0], STEPPER_YELLOW, PWM_MAX);
    RunConcat(d, p1, Step(STEPPER_YELLOW, PWM_MAX));
    assert Run(d, p2) == HalfStepTable[1] && Samples(d, p2) == HalfStepTable[..2];
    StepEffect(HalfStepTable[1], STEPPER_ORANGE, 0);
    RunConcat(d, p2, Step(STEPPER_ORANGE, 0));
    assert Run(d, p3) == HalfStepTable[2] && Samples(d, p3) == HalfStepTable[..3];
    StepEffect(HalfStepTable[2], STEPPER_PINK, PWM_MAX);
    RunConcat(d, p3, Step(STEPPER_PINK, PWM_MAX));
    assert Run(d, p4) == HalfStepTable[3] && Samples(d, p4) == HalfStepTable[..4];
    StepEffect(HalfStepTable[3], STEPPER_YELLOW, 0);
    RunConcat(d, p4, Step(STEPPER_YELLOW, 0));
    assert Run(d, p5) == HalfStepTable[4] && Samples(d, p5) == HalfStepTable[..5];
    StepEffect(HalfStepTable[4], STEPPER_BLUE, PWM_MAX);
    RunConcat(d, p5, Step(STEPPER_BLUE, PWM_MAX));
    assert Run(d, p6) == HalfStepTable[5] && Samples(d, p6) == HalfStepTable[..6];
    StepEffect(HalfStepTable[5], STEPPER_PINK, 0);
    RunConcat(d, p6, Step(STEPPER_PINK, 0));
    assert Run(d, p7) == HalfStepTable[6] && Samples(d, p7) == HalfStepTable[..7];
    StepEffect(HalfStepTable[6], STEPPER_ORANGE, PWM_MAX);
    RunConcat(d, p7, Step(STEPPER_ORANGE, PWM_MAX));
    assert Run(d, p8) == HalfStepTable[7] && Samples(d, p8) == HalfStepTable[..8];
    // the closing "blue off" write, with no sleep after it
    RunConcat(d, p8, [Write(STEPPER_BLUE, 0)]);
    assert [Write(STEPPER_BLUE, 0)][1..] == [];
  }

  // ----- The thread as a whole -----

  /** After the initial writes and `n` loop iterations, the thread has shown
      the eight half-step states `n` times over at its sleeps, and the
      channels hold all-off (before the first iteration) or only orange. */
  lemma {:induction false} SteadyState(d0: Duties, n: nat)
    ensures Run(d0, Trace(n)) == if n == 0 then AllOff else OnlyOrange
    ensures Samples(d0, Trace(n)) == Repeat(HalfStepTable, n)
  {
    if n == 0 {
      assert Trace(0) == InitWrites;
      InitAllOff(d0);
    } else {
      SteadyState(d0, n - 1);
      assert Trace(n) == Trace(n - 1) + LoopBody;
      RunConcat(d0, Trace(n - 1), LoopBody);
      OneIteration(Run(d0, Trace(n - 1)));
    }
  }

  /** One iteration maps only-orange back to itself, and the eight states it
      shows are pairwise distinct: the pattern repeats every eight sleeps and
      no sooner. */
  lemma Period()
    ensures Run(OnlyOrange, LoopBody) == OnlyOrange
    ensures Samples(OnlyOrange, LoopBody) == HalfStepTable
    ensures |HalfStepTable| == 8
    ensures forall i, j :: 0 <= i < j < |HalfStepTable| ==> HalfStepTable[i] != HalfStepTable[j]
  {
    OneIteration(OnlyOrange);
  }

  /** The sampled states of the table are the on/off states of `HalfStepCycle`. */
  lemma HalfStepTableIsCycle()
    ensures forall i :: 0 <= i < |HalfStepTable| ==> HalfStepTable[i] == DutiesOf(HalfStepCycle[i])
    ensures forall i :: 0 <= i < |HalfStepTable| ==> OnOff(HalfStepTable[i])
    ensures EnergizedTrace(HalfStepTable) == HalfStepCycle
  {
    forall i | 0 <= i < |HalfStepTable|
      ensures HalfStepTable[i] == DutiesOf(HalfStepCycle[i])
      ensures OnOff(HalfStepTable[i]) && Energized(HalfStepTable[i]) == HalfStepCycle[i]
    {
      EnergizedDutiesOf(HalfStepCycle[i]);
    }
  }

  /** Each sampled state energizes one or two windings. */
  lemma HalfStepTableOneOrTwo()
    ensures forall i :: 0 <= i < |HalfStepTable| ==> 1 <= |Energized(HalfStepTable[i])| <= 2
  {
    HalfStepTableIsCycle();
    assert forall i :: 0 <= i < |HalfStepCycle| ==> 1 <= |HalfStepCycle[i]| <= 2;
  }

  /** Each sampled state differs from the next one, cyclically, in exactly one
      winding; from the last back to the first that winding is blue. */
  lemma HalfStepTableOneChange()
    ensures OneChangeEach(HalfStepTable)
    ensures Changed(HalfStepTable[7], HalfStepTable[0]) == {Blue}
  {
    assert Changed(HalfStepTable[0], HalfStepTable[1]) == {Yellow} by {
      ChangedDutiesOf({Orange}, {Yellow, Orange});
    }
    assert Changed(HalfStepTable[1], HalfStepTable[2]) == {Orange} by {
      ChangedDutiesOf({Yellow, Orange}, {Yellow});
    }
    assert Changed(HalfStepTable[2], HalfStepTable[3]) == {Pink} by {
      ChangedDutiesOf({Yellow}, {Pink, Yellow});
    }
    assert Changed(HalfStepTable[3], HalfStepTable[4]) == {Yellow} by {
      ChangedDutiesOf({Pink, Yellow}, {Pink});
    }
    assert Changed(HalfStepTable[4], HalfStepTable[5]) == {Blue} by {
      ChangedDutiesOf({Pink}, {Blue, Pink});
    }
    assert Changed(HalfStepTable[5], HalfStepTable[6]) == {Pink} by {
      ChangedDutiesOf({Blue, Pink}, {Blue});
    }
    assert Changed(HalfStepTable[6], HalfStepTable[7]) == {Orange} by {
      ChangedDutiesOf({Blue}, {Blue, Orange});
    }
    assert Changed(HalfStepTable[7], HalfStepTable[0]) == {Blue} by {
      ChangedDutiesOf({Blue, Orange}, {Orange});
    }
  }

  lemma {:induction false} RepeatOneChange(t: seq<Duties>, n: nat)
    requires |t| > 0 && OneChangeEach(t) && |Changed(t[|t| - 1], t[0])| == 1
    ensures OneChangeEach(Repeat(t, n))
  {
    if n == 1 {
      assert Repeat(t, 1) == t;
    } else if n > 1 {
      RepeatOneChange(t, n - 1);
      RepeatLast(t, n - 1);
      var r, r' := Repeat(t, n), Repeat(t, n - 1);
      assert r == r' + t;
      forall i | 0 <= i < |r| - 1
        ensures |Changed(r[i], r[i + 1])| == 1
      {
        if i < |r'| - 1 {
          assert r[i] == r'[i] && r[i + 1] == r'[i + 1];
        } else if i == |r'| - 1 {
          assert r[i] == t[|t| - 1] && r[i + 1] == t[0];
        } else {
          assert r[i] == t[i - |r'|] && r[i + 1] == t[i - |r'| + 1];
        }
      }
    }
  }

  lemma EnergizedTraceConcat(a: seq<Duties>, b: seq<Duties>)
    ensures EnergizedTrace(a + b) == EnergizedTrace(a) + EnergizedTrace(b)
  {
  }

  lemma {:induction false} EnergizedTraceRepeat(t: seq<Duties>, n: nat)
    ensures EnergizedTrace(Repeat(t, n)) == Repeat(EnergizedTrace(t), n)
  {
    if n > 0 {
      EnergizedTraceRepeat(t, n - 1);
      EnergizedTraceConcat(Repeat(t, n - 1), t);
    }
  }

  /** At every sleep of the thread each channel is off or fully on, and one or
      two windings are energized: never none, three or four. */
  lemma OneOrTwoEnergized(d0: Duties, n: nat)
    ensures forall s :: s in Samples(d0, Trace(n)) ==> OnOff(s) && 1 <= |Energized(s)| <= 2
  {
    SteadyState(d0, n);
    RepeatElements(HalfStepTable, n);
    HalfStepTableIsCycle();
    HalfStepTableOneOrTwo();
    forall s | s in Samples(d0, Trace(n)) ensures OnOff(s) && 1 <= |Energized(s)| <= 2 {
      var i :| 0 <= i < |HalfStepTable| && HalfStepTable[i] == s;
    }
  }

  /** The energized windings at successive sleeps are orange; orange and
      yellow; yellow; yellow and pink; pink; pink and blue; blue; blue and
      orange; and again, once per loop iteration. */
  lemma SleepPointPhases(d0: Duties, n: nat)
    ensures EnergizedTrace(Samples(d0, Trace(n))) == Repeat(HalfStepCycle, n)
  {
    SteadyState(d0, n);
    EnergizedTraceRepeat(HalfStepTable, n);
    HalfStepTableIsCycle();
  }

  /** Between any two consecutive sleeps exactly one winding changes, also
      across the end of an iteration; and the first sleep differs from the
      all-off start in orange alone. */
  lemma OneChangePerSleep(d0: Duties, n: nat)
    ensures |Samples(d0, Trace(n))| == 8 * n
    ensures OneChangeEach(Samples(d0, Trace(n)))
    ensures n > 0 ==> Changed(AllOff, Samples(d0, Trace(n))[0]) == {Orange}
  {
    SteadyState(d0, n);
    HalfStepTableOneChange();
    RepeatOneChange(HalfStepTable, n);
    if n > 0 {
      assert Repeat(HalfStepTable, n)[0] == HalfStepTable[0] by {
        RepeatFirst(HalfStepTable, n);
      }
      ChangedDutiesOf({}, {Orange});
      assert AllOff == DutiesOf({});
    }
  }

  lemma {:induction false} RepeatFirst<T>(s: seq<T>, n: nat)
    requires n > 0 && |s| > 0
    ensures Repeat(s, n)[0] == s[0]
  {
    if n > 1 {
      RepeatFirst(s, n - 1);
    }
  }

  /** The end of one iteration and the start of the next: blue off, then
      orange on with no sleep between. Orange is already on there, so only
      blue changes; the orange write changes something only the very first
      time, from all-off. */
  lemma WrapAround()
    ensures LoopBody[|LoopBody| - 1] == Write(STEPPER_BLUE, 0)
    ensures LoopBody[0] == Write(STEPPER_ORANGE, PWM_MAX)
    ensures Apply(Apply(HalfStepTable[7], Write(STEPPER_BLUE, 0)), Write(STEPPER_ORANGE, PWM_MAX)) == HalfStepTable[0]
    ensures Apply(HalfStepTable[7], Write(STEPPER_BLUE, 0)) == OnlyOrange
    ensures Apply(OnlyOrange, Write(STEPPER_ORANGE, PWM_MAX)) == OnlyOrange
    ensures Apply(AllOff, Write(STEPPER_ORANGE, PWM_MAX)) != AllOff
  {
  }
}
