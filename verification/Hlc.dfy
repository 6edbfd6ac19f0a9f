/**
 Hybrid logical clocks (crates/doc/src/registry.rs): clocks are strings compared
 lexicographically, and zero padding makes that the order of (ms, counter, device).
 */
module Hlc {
  import opened Digits

  type Clock = string

  /** Lexicographic order on strings. */
  predicate Less(a: string, b: string) {
    b != [] && (a == [] || (if a[0] == b[0] then Less(a[1..], b[1..]) else a[0] < b[0]))
  }

  lemma {:induction false} LessTotal(a: string, b: string)
    ensures Less(a, b) || Less(b, a) || a == b
    ensures !(Less(a, b) && Less(b, a))
    ensures !Less(a, a)
  {
    if a != [] {
      LessTotal(a[1..], a[1..]);
    }
    if a != [] && b != [] && a[0] == b[0] {
      LessTotal(a[1..], b[1..]);
      assert a == [a[0]] + a[1..] && b == [b[0]] + b[1..];
    }
  }

  lemma {:induction false} LessTransitive(a: string, b: string, c: string)
    requires Less(a, b) && Less(b, c)
    ensures Less(a, c)
  {
    if a != [] && a[0] == b[0] == c[0] {
      LessTransitive(a[1..], b[1..], c[1..]);
    }
  }

  /** The order of clocks as one fact. */
  lemma StrictTotalOrder()
    ensures forall a, b :: Less(a, b) || Less(b, a) || a == b
    ensures forall a, b :: !(Less(a, b) && Less(b, a))
    ensures forall a :: !Less(a, a)
    ensures forall a, b, c :: Less(a, b) && Less(b, c) ==> Less(a, c)
  {
    forall a, b
      ensures Less(a, b) || Less(b, a) || a == b
      ensures !(Less(a, b) && Less(b, a))
    {
      LessTotal(a, b);
    }
    forall a
      ensures !Less(a, a)
    {
      LessTotal(a, a);
    }
    forall a, b, c | Less(a, b) && Less(b, c)
      ensures Less(a, c)
    {
      LessTransitive(a, b, c);
    }
  }

  // ── the encoding ─────────────────────────────────────────────────────────

  function Zeros(n: nat): (s: string)
    ensures |s| == n
  {
    if n == 0 then "" else Zeros(n - 1) + "0"
  }

  function PadTo(s: string, width: nat): string {
    if |s| >= width then s else Zeros(width - |s|) + s
  }

  function EncodeHlc(ms: nat, counter: nat, device: string): Clock {
    PadTo(Decimal(ms), 13) + ("-" + (PadTo(Decimal(counter), 6) + ("-" + device)))
  }

  function Pow10(n: nat): (p: nat)
    ensures p >= 1
  {
    if n == 0 then 1 else 10 * Pow10(n - 1)
  }

  const MS_LIMIT: nat := 10_000_000_000_000

  const COUNTER_MAX: nat := 999_999

  lemma Limits()
    ensures Pow10(13) == MS_LIMIT && Pow10(6) == COUNTER_MAX + 1
  {
    assert Pow10(3) == 1000;
    assert Pow10(6) == 1000 * Pow10(3);
    assert Pow10(9) == 1000 * Pow10(6);
    assert Pow10(12) == 1000 * Pow10(9);
  }

  /** The last `w` decimal digits of `n`. */
  function Fixed(n: nat, w: nat): (s: string)
    ensures |s| == w
  {
    if w == 0 then "" else Fixed(n / 10, w - 1) + [Digit(n % 10)]
  }

  lemma {:induction false} FixedZero(w: nat)
    ensures Fixed(0, w) == Zeros(w)
  {
    if w > 0 {
      FixedZero(w - 1);
    }
  }

  lemma {:induction false} PadIsFixed(n: nat, w: nat)
    requires 1 <= w && n < Pow10(w)
    ensures PadTo(Decimal(n), w) == Fixed(n, w)
  {
    if n < 10 {
      FixedZero(w - 1);
    } else {
      PadIsFixed(n / 10, w - 1);
      var head := Decimal(n / 10);
      assert |head| <= w - 1 by {
        assert |PadTo(head, w - 1)| == w - 1;
      }
      assert PadTo(head + [Digit(n % 10)], w) == PadTo(head, w - 1) + [Digit(n % 10)];
    }
  }

  /** Equal-width heads decide before the tails do. */
  lemma {:induction false} LessConcat(p: string, q: string, x: string, y: string)
    requires |p| == |q|
    ensures Less(p + x, q + y) <==> Less(p, q) || (p == q && Less(x, y))
  {
    if p == [] {
      assert p + x == x && q + y == y;
    } else {
      assert (p + x)[1..] == p[1..] + x && (q + y)[1..] == q[1..] + y;
      assert p == [p[0]] + p[1..] && q == [q[0]] + q[1..];
      LessConcat(p[1..], q[1..], x, y);
    }
  }

  lemma DigitOrder(a: nat, b: nat)
    requires a < 10 && b < 10
    ensures Less([Digit(a)], [Digit(b)]) <==> a < b
    ensures Digit(a) == Digit(b) <==> a == b
  {
  }

  lemma {:induction false} FixedOrder(a: nat, b: nat, w: nat)
    requires a < Pow10(w) && b < Pow10(w)
    ensures Less(Fixed(a, w), Fixed(b, w)) <==> a < b
    ensures Fixed(a, w) == Fixed(b, w) <==> a == b
  {
    if w > 0 {
      FixedOrder(a / 10, b / 10, w - 1);
      LessConcat(Fixed(a / 10, w - 1), Fixed(b / 10, w - 1), [Digit(a % 10)], [Digit(b % 10)]);
      DigitOrder(a % 10, b % 10);
      var s, t := Fixed(a, w), Fixed(b, w);
      assert s[..w - 1] == Fixed(a / 10, w - 1) && t[..w - 1] == Fixed(b / 10, w - 1);
      assert s[w - 1] == Digit(a % 10) && t[w - 1] == Digit(b % 10);
    }
  }

  /** Comparing encoded clocks compares (ms, counter, device). */
  lemma EncodedOrder(ms: nat, counter: nat, device: string, ms2: nat, counter2: nat, device2: string)
    requires ms < MS_LIMIT && ms2 < MS_LIMIT && counter <= COUNTER_MAX && counter2 <= COUNTER_MAX
    ensures Less(EncodeHlc(ms, counter, device), EncodeHlc(ms2, counter2, device2)) <==>
      Before(ms, counter, device, ms2, counter2, device2)
  {
    Limits();
    PadIsFixed(ms, 13);
    PadIsFixed(ms2, 13);
    PadIsFixed(counter, 6);
    PadIsFixed(counter2, 6);
    FixedOrder(ms, ms2, 13);
    FixedOrder(counter, counter2, 6);
    var tail, tail2 := "-" + device, "-" + device2;
    var mid, mid2 := Fixed(counter, 6) + tail, Fixed(counter2, 6) + tail2;
    LessConcat("-", "-", device, device2);
    LessConcat(Fixed(counter, 6), Fixed(counter2, 6), tail, tail2);
    LessConcat("-", "-", mid, mid2);
    LessConcat(Fixed(ms, 13), Fixed(ms2, 13), "-" + mid, "-" + mid2);
    LessTotal("-", "-");
  }

  /** The written form: thirteen digits, a dash, six digits, a dash, the device. */
  lemma {:induction false} EncodedShape(ms: nat, counter: nat, device: string)
    requires ms < MS_LIMIT && counter <= COUNTER_MAX
    ensures EncodeHlc(ms, counter, device) == Fixed(ms, 13) + "-" + Fixed(counter, 6) + "-" + device
  {
    Limits();
    PadIsFixed(ms, 13);
    PadIsFixed(counter, 6);
    Unnest(Fixed(ms, 13), Fixed(counter, 6), device);
  }

  lemma Unnest(a: string, b: string, c: string)
    ensures a + ("-" + (b + ("-" + c))) == a + "-" + b + "-" + c
  {
  }

  /** So different clocks never share a string. */
  lemma EncodedApart(ms: nat, counter: nat, device: string, ms2: nat, counter2: nat, device2: string)
    requires ms < MS_LIMIT && ms2 < MS_LIMIT && counter <= COUNTER_MAX && counter2 <= COUNTER_MAX
    ensures EncodeHlc(ms, counter, device) == EncodeHlc(ms2, counter2, device2) ==> ms == ms2 && counter == counter2
  {
    EncodedOrder(ms, counter, device, ms2, counter2, device2);
    EncodedOrder(ms2, counter2, device2, ms, counter, device);
    LessTotal(EncodeHlc(ms, counter, device), EncodeHlc(ms2, counter2, device2));
  }

  /** The order of clocks proper. */
  predicate Before(ms: nat, counter: nat, device: string, ms2: nat, counter2: nat, device2: string) {
    ms < ms2 || (ms == ms2 && (counter < counter2 || (counter == counter2 && Less(device, device2))))
  }

  // ── the clock source ─────────────────────────────────────────────────────

  datatype ClockState = ClockState(lastMs: nat, counter: nat)

  const START := ClockState(0, 0)

  function Tick(s: ClockState, now: int): ClockState {
    if now > s.lastMs then ClockState(now, 0)
    else if s.counter + 1 > COUNTER_MAX then ClockState(s.lastMs + 1, 0)
    else ClockState(s.lastMs, s.counter + 1)
  }

  /** The monotonic clock source. */
  class HlcClock {
    var lastMs: nat
    var counter: nat

    ghost function State(): ClockState
      reads this
    {
      ClockState(lastMs, counter)
    }

    constructor (s: ClockState)
      ensures State() == s
    {
      lastMs, counter := s.lastMs, s.counter;
    }

    method Next(now: int, device: string) returns (clock: Clock)
      modifies this
      ensures State() == Tick(old(State()), now)
      ensures clock == EncodeHlc(lastMs, counter, device)
    {
      if now > lastMs {
        lastMs := now;
        counter := 0;
      } else {
        counter := counter + 1;
        if counter > 999_999 {
          lastMs := lastMs + 1;
          counter := 0;
        }
      }
      clock := EncodeHlc(lastMs, counter, device);
    }
  }

  predicate Later(s: ClockState, t: ClockState) {
    s.lastMs < t.lastMs || (s.lastMs == t.lastMs && s.counter < t.counter)
  }

  /** The next clock is the least one that is later than the last, not behind the wall clock, and
      within the counter's width. */
  lemma TickLeast(s: ClockState, now: int, t: ClockState)
    requires s.counter <= COUNTER_MAX
    ensures t == Tick(s, now) <==>
      && Later(s, t) && t.lastMs >= now && t.counter <= COUNTER_MAX
      && forall u: ClockState :: Later(s, u) && u.lastMs >= now && u.counter <= COUNTER_MAX ==> !Later(u, t)
  {
    var least := Tick(s, now);
    if t != least && Later(s, t) && t.lastMs >= now && t.counter <= COUNTER_MAX {
      assert Later(least, t);
    }
  }

  // ── saving, loading and what is emitted ──────────────────────────────────

  /** The clock in memory and the one saved with the document. */
  datatype Source = Source(clock: ClockState, saved: ClockState)

  datatype ClockStep = Next(now: int, device: string) | Save | Load

  function After(s: ClockState, steps: seq<ClockStep>): Source {
    if steps == [] then Source(s, s)
    else
      var before := After(s, steps[..|steps| - 1]);
      match steps[|steps| - 1]
      case Next(now, _) => before.(clock := Tick(before.clock, now))
      case Save => before.(saved := before.clock)
      case Load => before.(clock := before.saved)
  }

  datatype Stamp = Stamp(state: ClockState, device: string)
  {
    function Encoded(): Clock {
      EncodeHlc(state.lastMs, state.counter, device)
    }
  }

  /** The stamps handed out, in order. */
  function Stamps(s: ClockState, steps: seq<ClockStep>): seq<Stamp> {
    if steps == [] then []
    else
      var before := Stamps(s, steps[..|steps| - 1]);
      match steps[|steps| - 1]
      case Next(_, device) => before + [Stamp(After(s, steps).clock, device)]
      case _ => before
  }

  function Strings(stamps: seq<Stamp>): (clocks: seq<Clock>)
    ensures |clocks| == |stamps|
  {
    if stamps == [] then [] else Strings(stamps[..|stamps| - 1]) + [stamps[|stamps| - 1].Encoded()]
  }

  function Emitted(s: ClockState, steps: seq<ClockStep>): seq<Clock> {
    Strings(Stamps(s, steps))
  }

  ghost predicate Increasing(clocks: seq<Clock>) {
    forall i, j :: 0 <= i < j < |clocks| ==> Less(clocks[i], clocks[j])
  }

  /** Widths hold for everything handed out. */
  ghost predicate InRange(stamps: seq<Stamp>) {
    forall i :: 0 <= i < |stamps| ==> stamps[i].state.lastMs < MS_LIMIT && stamps[i].state.counter <= COUNTER_MAX
  }

  /** A call is safe if the clock in memory is the one handed out last, or the wall clock has passed that
      one, or the same state goes out again under a later device name. */
  predicate SafeCall(last: Stamp, clock: ClockState, now: int, device: string) {
    clock == last.state || now > last.state.lastMs || (Tick(clock, now) == last.state && Less(last.device, device))
  }

  /** Every call of the run is safe. */
  predicate SafeCalls(s: ClockState, steps: seq<ClockStep>) {
    steps == []
    || (var init, last := steps[..|steps| - 1], steps[|steps| - 1];
        && SafeCalls(s, init)
        && (var before := Stamps(s, init);
            last.Next? && before != [] ==>
            SafeCall(before[|before| - 1], After(s, init).clock, last.now, last.device)))
  }

  /** Neither clock is ahead of what was handed out last. */
  lemma {:induction false} NeverAhead(s: ClockState, steps: seq<ClockStep>)
    requires s.counter <= COUNTER_MAX
    ensures After(s, steps).clock.counter <= COUNTER_MAX && After(s, steps).saved.counter <= COUNTER_MAX
    ensures !Later(After(s, steps).clock, After(s, steps).saved)
    ensures var stamps := Stamps(s, steps);
      stamps != [] ==> !Later(stamps[|stamps| - 1].state, After(s, steps).clock)
  {
    if steps != [] {
      NeverAhead(s, steps[..|steps| - 1]);
    }
  }

  /** What a safe call amounts to: its string is greater. */
  lemma SafeIsGreater(last: Stamp, clock: ClockState, now: int, device: string)
    requires !Later(last.state, clock) && clock.counter <= COUNTER_MAX && last.state.counter <= COUNTER_MAX
    requires last.state.lastMs < MS_LIMIT && Tick(clock, now).lastMs < MS_LIMIT
    ensures SafeCall(last, clock, now, device) <==>
      Less(last.Encoded(), Stamp(Tick(clock, now), device).Encoded())
  {
    var t := Tick(clock, now);
    EncodedOrder(last.state.lastMs, last.state.counter, last.device, t.lastMs, t.counter, device);
  }

  lemma {:induction false} IncreasingSnoc(clocks: seq<Clock>, clock: Clock)
    ensures Increasing(clocks + [clock]) <==>
      Increasing(clocks) && (clocks != [] ==> Less(clocks[|clocks| - 1], clock))
  {
    var all := clocks + [clock];
    assert forall i :: 0 <= i < |clocks| ==> all[i] == clocks[i];
    assert all[|clocks|] == clock;
    if Increasing(all) {
      assert Increasing(clocks) by {
        assert forall i, j :: 0 <= i < j < |clocks| ==> Less(all[i], all[j]);
      }
    }
    if Increasing(clocks) && clocks != [] && Less(clocks[|clocks| - 1], clock) {
      forall i, j | 0 <= i < j < |all| ensures Less(all[i], all[j]) {
        if j == |clocks| && i < |clocks| - 1 {
          LessTransitive(clocks[i], clocks[|clocks| - 1], clock);
        }
      }
    }
  }

  lemma {:induction false} StringsPush(stamps: seq<Stamp>, x: Stamp)
    ensures Increasing(Strings(stamps + [x])) <==>
      Increasing(Strings(stamps)) && (stamps != [] ==> Less(stamps[|stamps| - 1].Encoded(), x.Encoded()))
  {
    assert (stamps + [x])[..|stamps|] == stamps;
    IncreasingSnoc(Strings(stamps), x.Encoded());
  }

  /** Whatever the wall clock does and wherever the state is saved and loaded, the strings handed out
      strictly increase if and only if every call is safe. */
  lemma {:induction false} IncreasingExactly(s: ClockState, steps: seq<ClockStep>)
    requires s.counter <= COUNTER_MAX && InRange(Stamps(s, steps))
    ensures Increasing(Emitted(s, steps)) <==> SafeCalls(s, steps)
  {
    if steps != [] {
      var init, last := steps[..|steps| - 1], steps[|steps| - 1];
      InRangeInit(s, steps);
      IncreasingExactly(s, init);
      if last.Next? {
        CallExactly(s, steps);
      } else {
        assert Stamps(s, steps) == Stamps(s, init);
      }
    }
  }

  lemma {:induction false} InRangeInit(s: ClockState, steps: seq<ClockStep>)
    requires steps != [] && InRange(Stamps(s, steps))
    ensures InRange(Stamps(s, steps[..|steps| - 1]))
    ensures steps[|steps| - 1].Next? ==>
      Tick(After(s, steps[..|steps| - 1]).clock, steps[|steps| - 1].now).lastMs < MS_LIMIT
  {
    var before, all := Stamps(s, steps[..|steps| - 1]), Stamps(s, steps);
    assert forall i :: 0 <= i < |before| ==> before[i] == all[i];
    if steps[|steps| - 1].Next? {
      assert all[|before|].state == After(s, steps).clock;
    }
  }

  /** One more call keeps the strings increasing exactly when it is safe. */
  lemma CallExactly(s: ClockState, steps: seq<ClockStep>)
    requires s.counter <= COUNTER_MAX && steps != [] && steps[|steps| - 1].Next? && InRange(Stamps(s, steps))
    ensures var init, last := steps[..|steps| - 1], steps[|steps| - 1];
      var before := Stamps(s, init);
      Increasing(Emitted(s, steps)) <==>
      Increasing(Emitted(s, init))
      && (before != [] ==> SafeCall(before[|before| - 1], After(s, init).clock, last.now, last.device))
  {
    var init, last := steps[..|steps| - 1], steps[|steps| - 1];
    InRangeInit(s, steps);
    NeverAhead(s, init);
    var before, clock := Stamps(s, init), After(s, init).clock;
    StringsPush(before, Stamp(Tick(clock, last.now), last.device));
    if before != [] {
      SafeIsGreater(before[|before| - 1], clock, last.now, last.device);
    }
  }

  /** A load gives back the clock in memory: nothing was handed out since the save. */
  predicate LoadsCurrent(s: ClockState, steps: seq<ClockStep>) {
    steps == []
    || (var init := steps[..|steps| - 1];
        LoadsCurrent(s, init) && (steps[|steps| - 1].Load? ==> After(s, init).saved == After(s, init).clock))
  }

  lemma {:induction false} CurrentIsSafe(s: ClockState, steps: seq<ClockStep>)
    requires LoadsCurrent(s, steps)
    ensures SafeCalls(s, steps)
    ensures var stamps := Stamps(s, steps); stamps != [] ==> stamps[|stamps| - 1].state == After(s, steps).clock
  {
    if steps != [] {
      CurrentIsSafe(s, steps[..|steps| - 1]);
    }
  }

  /** In particular if the state is saved after every call that precedes a load. */
  lemma {:induction false} EmittedIncreasing(s: ClockState, steps: seq<ClockStep>)
    requires s.counter <= COUNTER_MAX && InRange(Stamps(s, steps)) && LoadsCurrent(s, steps)
    ensures Increasing(Emitted(s, steps))
  {
    CurrentIsSafe(s, steps);
    IncreasingExactly(s, steps);
  }

  /** A restart from a save made before the last call hands the same string out again. */
  lemma StaleLoadRepeats(device: string)
    ensures var steps := [Save, Next(5, device), Load, Next(5, device)];
      var e := Emitted(START, steps); |e| == 2 && e[0] == e[1]
  {
    var x := Stamp(ClockState(5, 0), device);
    var s1 := [Save];
    var s2 := s1 + [Next(5, device)];
    var s3 := s2 + [Load];
    StepSnoc(START, [], Save);
    StepSnoc(START, s1, Next(5, device));
    StepSnoc(START, s2, Load);
    StepSnoc(START, s3, Next(5, device));
    assert [] + [Save] == s1 && s3 + [Next(5, device)] == [Save, Next(5, device), Load, Next(5, device)];
    assert [] + [x] == [x] && [x] + [x] == [x, x];
    TwoStrings(x);
  }

  lemma TwoStrings(x: Stamp)
    ensures Strings([x, x]) == [x.Encoded(), x.Encoded()]
  {
    assert [x, x][..1] == [x] && [x][..0] == [];
    assert Strings([x]) == [x.Encoded()];
  }

  lemma {:induction false} StepSnoc(s: ClockState, steps: seq<ClockStep>, step: ClockStep)
    ensures After(s, steps + [step]) == (match step
      case Next(now, _) => After(s, steps).(clock := Tick(After(s, steps).clock, now))
      case Save => After(s, steps).(saved := After(s, steps).clock)
      case Load => After(s, steps).(clock := After(s, steps).saved))
    ensures Stamps(s, steps + [step])
         == if step.Next? then Stamps(s, steps) + [Stamp(Tick(After(s, steps).clock, step.now), step.device)]
            else Stamps(s, steps)
  {
    assert (steps + [step])[..|steps|] == steps;
  }

  /** `d` followed by `k` zeros. */
  function Scale(d: nat, k: nat): nat {
    if k == 0 then d else 10 * Scale(d, k - 1)
  }

  lemma {:induction false} LeadDigit(n: nat, k: nat, d: nat)
    requires 1 <= d < 10 && Scale(d, k) <= n < Scale(d + 1, k)
    ensures Decimal(n)[0] == Digit(d)
  {
    if k > 0 {
      ScalePositive(d, k - 1);
      LeadDigit(n / 10, k - 1, d);
    }
  }

  lemma {:induction false} ScalePositive(d: nat, k: nat)
    requires d >= 1
    ensures Scale(d, k) >= 1
  {
    if k > 0 {
      ScalePositive(d, k - 1);
    }
  }

  /** The width bound is needed: one millisecond past it the next clock sorts before its predecessor. */
  lemma WiderSortsEarlier()
    ensures Less(EncodeHlc(MS_LIMIT, 0, "d"), EncodeHlc(MS_LIMIT - 1, 0, "d"))
  {
    WideLeads();
    NarrowLeads();
  }

  lemma WideLeads()
    ensures EncodeHlc(MS_LIMIT, 0, "d")[0] == '1'
  {
    Limits();
    assert Scale(1, 13) == MS_LIMIT && Scale(2, 13) == 2 * MS_LIMIT;
    LeadDigit(MS_LIMIT, 13, 1);
    assert Pow10(13) == 10 * Pow10(12);
    DecimalWidth(MS_LIMIT, 14);
  }

  lemma NarrowLeads()
    ensures EncodeHlc(MS_LIMIT - 1, 0, "d")[0] == '9'
  {
    Limits();
    assert Scale(9, 12) == 9_000_000_000_000 && Scale(10, 12) == MS_LIMIT;
    assert Pow10(13) == 10 * Pow10(12);
    LeadDigit(MS_LIMIT - 1, 12, 9);
    DecimalWidth(MS_LIMIT - 1, 13);
  }

  ghost predicate Agrees(ms: nat, counter: nat, device: string, ms2: nat, counter2: nat, device2: string) {
    Less(EncodeHlc(ms, counter, device), EncodeHlc(ms2, counter2, device2)) <==>
    Before(ms, counter, device, ms2, counter2, device2)
  }

  lemma WiderDisagrees()
    ensures !Agrees(MS_LIMIT, 0, "d", MS_LIMIT - 1, 0, "d")
  {
    WiderSortsEarlier();
  }

  /** Comparing strings compares clocks, for all clocks below `limit` ms, if and only if `limit` leaves the
      padding wide enough. */
  lemma OrderLimit(limit: nat)
    ensures limit <= MS_LIMIT <==>
      forall ms: nat, counter: nat, device, ms2: nat, counter2: nat, device2 ::
        ms < limit && ms2 < limit && counter <= COUNTER_MAX && counter2 <= COUNTER_MAX ==>
        Agrees(ms, counter, device, ms2, counter2, device2)
  {
    if limit <= MS_LIMIT {
      forall ms: nat, counter: nat, device, ms2: nat, counter2: nat, device2
        | ms < limit && ms2 < limit && counter <= COUNTER_MAX && counter2 <= COUNTER_MAX
        ensures Agrees(ms, counter, device, ms2, counter2, device2)
      {
        EncodedOrder(ms, counter, device, ms2, counter2, device2);
      }
    } else {
      WiderDisagrees();
    }
  }

  lemma {:induction false} DecimalWidth(n: nat, w: nat)
    requires 1 <= w && Pow10(w - 1) <= n < Pow10(w)
    ensures |Decimal(n)| == w
  {
    if w > 1 {
      DecimalWidth(n / 10, w - 1);
    }
  }
}
