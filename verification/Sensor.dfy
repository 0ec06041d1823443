/** The sensor simulation of main.ts: what it reads after any run of ticks, faults and key presses. */
module Sensor {

  const LOWEST := 18.0
  const HIGHEST := 26.0
  const STEP := 0.5
  const NUDGE := 1.1
  const STATES := 3

  datatype Readings = Readings(analog: real, direction: real, openLoop: bool, binary: nat, multi: nat, lastSecond: nat)

  const START := Readings(21.5, 1.0, false, 0, 1, 0)

  // ----- one tick

  function Direction(analog: real, direction: real): real {
    if analog >= HIGHEST then -1.0 else if analog <= LOWEST then 1.0 else direction
  }

  function Ramped(r: Readings): Readings {
    var d := Direction(r.analog, r.direction);
    r.(direction := d, analog := r.analog + d * STEP)
  }

  function Processed(r: Readings, second: nat, broken: bool): Readings {
    var s := r.(openLoop := broken, lastSecond := second,
                binary := if second % 3 == 0 then (if r.binary != 0 then 0 else 1) else r.binary,
                multi := if second % 4 == 0 then r.multi % STATES + 1 else r.multi);
    if broken then s else Ramped(s)
  }

  /** `SensorSimulationTick`: nothing happens until the second changes. */
  function Tick(r: Readings, second: nat, broken: bool): Readings {
    if second == r.lastSecond then r else Processed(r, second, broken)
  }

  function Nudged(r: Readings, up: bool): Readings {
    r.(analog := if up then r.analog + NUDGE else r.analog - NUDGE)
  }

  /** The module variables, updated in place. */
  class Simulation {
    var analog: real
    var direction: real
    var openLoop: bool
    var binary: nat
    var multi: nat
    var lastSecond: nat

    function View(): Readings
      reads this
    {
      Readings(analog, direction, openLoop, binary, multi, lastSecond)
    }

    constructor ()
      ensures View() == START
    {
      analog, direction, openLoop, binary, multi, lastSecond := 21.5, 1.0, false, 0, 1, 0;
    }

    method SensorSimulationTick(second: nat, broken: bool)
      modifies this
      ensures View() == Tick(old(View()), second, broken)
    {
      if second == lastSecond {
        return;
      }
      lastSecond := second;
      if broken != openLoop {
        openLoop := broken;
      }
      if !openLoop {
        if analog >= HIGHEST {
          direction := -1.0;
        } else if analog <= LOWEST {
          direction := 1.0;
        }
        analog := analog + direction * STEP;
      }
      if second % 3 == 0 {
        binary := if binary != 0 then 0 else 1;
      }
      if second % 4 == 0 {
        multi := multi % STATES + 1;
      }
    }

    method ArrowKey(up: bool)
      modifies this`analog
      ensures View() == Nudged(old(View()), up)
    {
      analog := if up then analog + NUDGE else analog - NUDGE;
    }
  }

  // ----- runs of ticks, without keys

  datatype Beat = Beat(second: nat, broken: bool)

  function After(beats: seq<Beat>): Readings {
    if beats == [] then START
    else Tick(After(beats[..|beats| - 1]), beats[|beats| - 1].second, beats[|beats| - 1].broken)
  }

  /** The beats at which the second had changed. */
  function Counted(beats: seq<Beat>): seq<Beat> {
    if beats == [] then [] else
    var front, last := beats[..|beats| - 1], beats[|beats| - 1];
    Counted(front) + (if last.second == After(front).lastSecond then [] else [last])
  }

  function Healthy(beats: seq<Beat>): nat {
    if beats == [] then 0 else Healthy(beats[..|beats| - 1]) + (if beats[|beats| - 1].broken then 0 else 1)
  }

  function Multiples(beats: seq<Beat>, of: nat): nat
    requires of > 0
  {
    if beats == [] then 0
    else Multiples(beats[..|beats| - 1], of) + (if beats[|beats| - 1].second % of == 0 then 1 else 0)
  }

  /** The triangle wave: period 32, on the 0.5 grid, from 21.5 upwards. */
  function Wave(n: nat): real {
    var k := (n + 7) % 32;
    if k <= 16 then LOWEST + STEP * k as real else HIGHEST - STEP * (k - 16) as real
  }

  function Slope(n: nat): real { if 1 <= (n + 7) % 32 <= 16 then 1.0 else -1.0 }

  lemma WaveNext(n: nat)
    ensures Direction(Wave(n), Slope(n)) == Slope(n + 1)
    ensures Wave(n) + Slope(n + 1) * STEP == Wave(n + 1)
    ensures LOWEST <= Wave(n) <= HIGHEST && Wave(n + 32) == Wave(n)
  {
    var k := (n + 7) % 32;
    assert (n + 1 + 7) % 32 == if k == 31 then 0 else k + 1;
    assert (n + 32 + 7) % 32 == k;
  }

  /** What the counted seconds `c` amount to. */
  ghost predicate Accounts(r: Readings, c: seq<Beat>) {
    && r.analog == Wave(Healthy(c)) && r.direction == Slope(Healthy(c))
    && r.openLoop == (c != [] && c[|c| - 1].broken)
    && r.lastSecond == (if c == [] then 0 else c[|c| - 1].second)
    && r.binary == Multiples(c, 3) % 2
    && r.multi == Multiples(c, 4) % 3 + 1
  }

  lemma CountsNext(c: seq<Beat>, last: Beat)
    ensures Healthy(c + [last]) == Healthy(c) + (if last.broken then 0 else 1)
    ensures Multiples(c + [last], 3) == Multiples(c, 3) + (if last.second % 3 == 0 then 1 else 0)
    ensures Multiples(c + [last], 4) == Multiples(c, 4) + (if last.second % 4 == 0 then 1 else 0)
  {
    var d := c + [last];
    assert d[..|d| - 1] == c && d[|d| - 1] == last;
  }

  lemma ParityNext(m: nat)
    ensures (m + 1) % 2 == if m % 2 != 0 then 0 else 1
    ensures (m + 1) % 3 + 1 == (m % 3 + 1) % 3 + 1
  {
  }

  lemma ProcessedAccounts(r: Readings, c: seq<Beat>, last: Beat)
    requires Accounts(r, c)
    ensures Accounts(Processed(r, last.second, last.broken), c + [last])
  {
    hide Wave, Slope, Direction, Healthy, Multiples;
    WaveNext(Healthy(c));
    CountsNext(c, last);
    ParityNext(Multiples(c, 3));
    ParityNext(Multiples(c, 4));
  }

  /** After any run of ticks: the analog reading is the triangle wave of the number of healthy seconds,
      Reliability tells whether the last counted second saw a broken wire, and the two digital readings
      count the seconds divisible by 3 and by 4. */
  lemma {:induction false} ClosedForm(beats: seq<Beat>)
    ensures Accounts(After(beats), Counted(beats))
  {
    hide Processed;
    if beats != [] {
      var front, last := beats[..|beats| - 1], beats[|beats| - 1];
      ClosedForm(front);
      hide Accounts;
      var c := Counted(front);
      if last.second != After(front).lastSecond {
        ProcessedAccounts(After(front), c, last);
      } else {
        assert c + [] == c;
      }
    }
  }

  /** A second with a broken wire freezes the reading, whatever it is; a healthy one moves it by 0.5. */
  lemma FrozenWhileBroken(r: Readings, second: nat, broken: bool)
    requires second != r.lastSecond && (r.direction == 1.0 || r.direction == -1.0)
    ensures Tick(r, second, broken).openLoop == broken
    ensures Tick(r, second, broken).analog == r.analog <==> broken
  {
  }

  /** No second is skipped: each beat is in the last counted second or the one after it. */
  predicate Steady(beats: seq<Beat>) {
    beats == [] ||
    (Steady(beats[..|beats| - 1]) &&
     After(beats[..|beats| - 1]).lastSecond <= beats[|beats| - 1].second <= After(beats[..|beats| - 1]).lastSecond + 1)
  }

  lemma {:induction false} MultiplesCounted(beats: seq<Beat>, of: nat)
    requires (of == 3 || of == 4) && Steady(beats)
    ensures Multiples(Counted(beats), of) == After(beats).lastSecond / of
  {
    if beats != [] {
      var front, last := beats[..|beats| - 1], beats[|beats| - 1];
      MultiplesCounted(front, of);
      var c, s := Counted(front), After(front).lastSecond;
      if last.second == s {
        assert c + [] == c;
      } else {
        assert (c + [last])[..|c|] == c;
        Quotients(s, of);
        assert Counted(beats) == c + [last];
        assert After(beats).lastSecond == s + 1;
        hide After, Counted;
      }
    }
  }

  lemma Quotients(s: nat, of: nat)
    requires of == 3 || of == 4
    ensures (s + 1) / of == s / of + (if (s + 1) % of == 0 then 1 else 0)
  {
    if of == 3 {
      assert (s + 1) / 3 == s / 3 + (if (s + 1) % 3 == 0 then 1 else 0);
    } else {
      assert (s + 1) / 4 == s / 4 + (if (s + 1) % 4 == 0 then 1 else 0);
    }
  }

  /** When no second is skipped the digital readings are functions of the second alone. */
  lemma SteadyForm(beats: seq<Beat>)
    requires Steady(beats)
    ensures var r := After(beats); r.binary == r.lastSecond / 3 % 2 && r.multi == r.lastSecond / 4 % 3 + 1
  {
    ClosedForm(beats);
    MultiplesCounted(beats, 3);
    MultiplesCounted(beats, 4);
  }

  // ----- with keys

  datatype Input = Time(second: nat, broken: bool) | Key(up: bool)

  function Next(r: Readings, i: Input): Readings {
    match i
    case Time(second, broken) => Tick(r, second, broken)
    case Key(up) => Nudged(r, up)
  }

  function AfterInputs(inputs: seq<Input>): Readings {
    if inputs == [] then START else Next(AfterInputs(inputs[..|inputs| - 1]), inputs[|inputs| - 1])
  }

  predicate Sound(r: Readings) {
    (r.direction == 1.0 || r.direction == -1.0) && r.binary < 2 && 1 <= r.multi <= STATES
  }

  /** Whatever ticks and keys came: the direction is up or down, the binary value 0 or 1, the state 1..3. */
  lemma {:induction false} AlwaysSound(inputs: seq<Input>)
    ensures Sound(AfterInputs(inputs))
  {
    if inputs != [] {
      AlwaysSound(inputs[..|inputs| - 1]);
    }
  }

  function Keys(keys: seq<bool>): seq<Input> {
    if keys == [] then [] else Keys(keys[..|keys| - 1]) + [Key(keys[|keys| - 1])]
  }

  function Ups(keys: seq<bool>): int {
    if keys == [] then 0 else Ups(keys[..|keys| - 1]) + (if keys[|keys| - 1] then 1 else -1)
  }

  /** However the readings were reached, keys move the analog one by 1.1 for every up that no down cancels,
      and nothing else. */
  lemma {:induction false} KeysMove(inputs: seq<Input>, keys: seq<bool>)
    ensures var r := AfterInputs(inputs);
            AfterInputs(inputs + Keys(keys)) == r.(analog := r.analog + 1.1 * Ups(keys) as real)
    decreases |keys|
  {
    hide AfterInputs;
    if keys == [] {
      assert inputs + Keys(keys) == inputs;
    } else {
      var front, last := keys[..|keys| - 1], keys[|keys| - 1];
      KeysMove(inputs, front);
      assert inputs + Keys(keys) == inputs + Keys(front) + [Key(last)];
      OneMore(inputs + Keys(front), Key(last));
    }
  }

  predicate InBand(analog: real) { LOWEST - STEP < analog < HIGHEST + STEP }

  /** How far a reading is from the band. */
  function Distance(analog: real): real {
    if analog >= HIGHEST + STEP then analog - (HIGHEST + STEP)
    else if analog <= LOWEST - STEP then LOWEST - STEP - analog
    else 0.0
  }

  /** Ticks only, in any rhythm: seconds may repeat, skip or be broken. */
  function Ticks(r: Readings, beats: seq<Beat>): Readings
    decreases |beats|
  {
    if beats == [] then r else Ticks(Tick(r, beats[0].second, beats[0].broken), beats[1..])
  }

  /** The seconds counted among them in which the wire was whole. */
  function HealthyIn(r: Readings, beats: seq<Beat>): nat
    decreases |beats|
  {
    if beats == [] then 0
    else (if beats[0].second != r.lastSecond && !beats[0].broken then 1 else 0) +
         HealthyIn(Tick(r, beats[0].second, beats[0].broken), beats[1..])
  }

  function Times(beats: seq<Beat>): seq<Input> {
    if beats == [] then [] else [Time(beats[0].second, beats[0].broken)] + Times(beats[1..])
  }

  lemma OneMore(inputs: seq<Input>, i: Input)
    ensures AfterInputs(inputs + [i]) == Next(AfterInputs(inputs), i)
  {
    assert (inputs + [i])[..|inputs|] == inputs;
  }

  lemma {:induction false} TicksAfter(inputs: seq<Input>, beats: seq<Beat>)
    ensures AfterInputs(inputs + Times(beats)) == Ticks(AfterInputs(inputs), beats)
    decreases |beats|
  {
    hide Tick, AfterInputs;
    if beats == [] {
      assert inputs + Times(beats) == inputs;
    } else {
      var time := Time(beats[0].second, beats[0].broken);
      OneMore(inputs, time);
      assert inputs + Times(beats) == inputs + [time] + Times(beats[1..]);
      TicksAfter(inputs + [time], beats[1..]);
    }
  }

  lemma TickInBand(r: Readings, second: nat, broken: bool)
    requires r.direction == 1.0 || r.direction == -1.0
    ensures var t := Tick(r, second, broken);
            && (t.direction == 1.0 || t.direction == -1.0)
            && (if second == r.lastSecond || broken then t.analog == r.analog
                else if InBand(r.analog) then InBand(t.analog)
                else if InBand(t.analog) then Distance(r.analog) < STEP
                else Distance(t.analog) == Distance(r.analog) - STEP)
  {
  }

  lemma {:induction false} BandFrom(r: Readings, beats: seq<Beat>)
    requires r.direction == 1.0 || r.direction == -1.0
    ensures InBand(Ticks(r, beats).analog) <==>
            InBand(r.analog) || HealthyIn(r, beats) as real > 2.0 * Distance(r.analog)
    decreases |beats|
  {
    if beats != [] {
      TickInBand(r, beats[0].second, beats[0].broken);
      BandFrom(Tick(r, beats[0].second, beats[0].broken), beats[1..]);
      hide Tick;
    }
  }

  /** However the reading was reached, by ticks and keys, and whatever ticks follow: it is in the band
      17.5 < reading < 26.5 exactly if it was there or the healthy seconds since number more than twice
      its distance from the band. So it comes into the band, no sooner and no later, and stays there
      until the next key. */
  lemma ConvergesToBand(inputs: seq<Input>, beats: seq<Beat>)
    ensures var r := AfterInputs(inputs);
            InBand(AfterInputs(inputs + Times(beats)).analog) <==>
            InBand(r.analog) || HealthyIn(r, beats) as real > 2.0 * Distance(r.analog)
  {
    AlwaysSound(inputs);
    TicksAfter(inputs, beats);
    hide Ticks, HealthyIn, InBand, Distance, AfterInputs;
    BandFrom(AfterInputs(inputs), beats);
  }
}
