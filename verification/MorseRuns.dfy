/** What a listener makes of the light is what was printed. */
module MorseRuns {
  import opened Bytes
  import opened Morse
  import opened MorseSend

  // ---------------------------------------------------------------------
  //  Receiving
  // ---------------------------------------------------------------------

  const DIT_DURATION := 300
  const MAX_DIT_TIME := 400

  /** The pattern keyed so far behind its start bit, how long the light has
      been off, and the text. */
  datatype Listener = Listener(partial: byte, gap: nat, text: seq<Key>)

  const SILENCE := Listener(1, 0, [])

  /** A signal is appended as `morse_key_switch_task` does; three units of
      darkness end a letter: section 2 of Part I of Annex 1 of ITU-R M.1677-1. */
  function Hear(l: Listener, p: Pulse): Listener {
    if p.on then
      Listener((l.partial << 1) | (if p.units * DIT_DURATION > MAX_DIT_TIME then 1 else 0), 0, l.text)
    else if l.gap + p.units >= LETTER_SPACE && l.partial != 1 then
      Listener(1, l.gap + p.units, l.text + Typed(l.partial))
    else l.(gap := l.gap + p.units)
  }

  /** `morse_input`. */
  function Typed(pattern: byte): seq<Key> {
    var place := Find(pattern, 0);
    if place.Some? then [KeyAt(place.value)] else []
  }

  function Listen(light: seq<Pulse>): Listener {
    if light == [] then SILENCE else Hear(Listen(light[..|light| - 1]), light[|light| - 1])
  }

  lemma {:induction false} ListenOn(light: seq<Pulse>, p: Pulse)
    ensures Listen(light + [p]) == Hear(Listen(light), p)
  {
    assert (light + [p])[..|light|] == light;
  }

  // ---------------------------------------------------------------------
  //  Runs
  // ---------------------------------------------------------------------

  /** A character is printed, or the timer ends. */
  datatype Event = Print(code: nat) | Timer

  datatype World = World(sender: Sender, stdout: seq<nat>, light: seq<Pulse>)

  function Next(w: World): byte { if w.stdout == [] then 0 else Coded(w.stdout[0]) }

  function Happens(w: World, e: Event): World {
    match e
    case Print(code) => w.(stdout := w.stdout + [code])
    case Timer =>
      var (s, pulses) := Call(w.sender, Next(w));
      World(s, if Dequeues(w.sender) && w.stdout != [] then w.stdout[1..] else w.stdout, w.light + pulses)
  }

  function Run(events: seq<Event>): World {
    if events == [] then World(RESET, [], []) else Happens(Run(events[..|events| - 1]), events[|events| - 1])
  }

  function PrintedBy(events: seq<Event>): seq<nat> {
    if events == [] then []
    else
      var e := events[|events| - 1];
      PrintedBy(events[..|events| - 1]) + (if e.Print? then [e.code] else [])
  }

  predicate IsNewline(code: nat) { code == 10 || code == 13 }

  /** A space, or one modulo 64. */
  predicate IsBlank(code: nat) {
    code != 0 && !IsNewline(code) && Index(code) == 0
  }

  predicate Sendable(code: nat) { !IsBlank(code) }

  function Index(code: nat): (i: nat)
    ensures i < 64
  {
    ((if code > 96 then code - 32 else code) - 32) % 64
  }

  /** What a printed character ought to be heard as: an end of line as the end
      sign, NUL as nothing, lower case as upper case, the rest modulo 64. */
  function KeyOf(code: nat): seq<Key> {
    if code == 0 then [] else if IsNewline(code) then [Special(6)] else [Character(Index(code) + 32)]
  }

  function KeysOf(codes: seq<nat>): seq<Key> {
    if codes == [] then [] else KeysOf(codes[..|codes| - 1]) + KeyOf(codes[|codes| - 1])
  }

  predicate AllSendable(codes: seq<nat>) {
    forall i :: 0 <= i < |codes| ==> Sendable(codes[i])
  }

  // ---------------------------------------------------------------------
  //  Invariant
  // ---------------------------------------------------------------------

  predicate OneBit(b: byte) {
    b == 1 || b == 2 || b == 4 || b == 8 || b == 16 || b == 32 || b == 64 || b == 128
  }

  /** What has been sent of p when b is the current bit, start bit and all. */
  function Sent(p: byte, b: byte): byte
    requires OneBit(b)
  {
    p / b
  }

  /** Between two letters the listener holds nothing; within one it has heard
      the pattern down to the current bit. */
  predicate InStep(s: Sender, l: Listener) {
    && (s.phase == IDLE || s.phase == CHARACTER)
    && (s.phase == IDLE ==> !s.on && l.gap == 0)
    && (Dequeues(s) ==> l.partial == 1)
    && (!Dequeues(s) ==> OneBit(s.bit) && l.partial == Sent(s.pattern, s.bit) != 0 && l.gap <= SYMBOL_SPACE)
    && (s.on ==> l.gap == 0 && l.partial != 1)
  }

  /** The letter on its way. */
  function InFlight(s: Sender): seq<Key> {
    if Dequeues(s) then [] else Typed(s.pattern)
  }

  lemma {:induction false} SentMore(p: byte, b: byte)
    requires OneBit(b) && b != 1 && Sent(p, b) != 0
    ensures OneBit(b >> 1)
    ensures Sent(p, b >> 1) == (Sent(p, b) << 1) | (if p & (b >> 1) != 0 then 1 else 0)
    ensures Sent(p, b >> 1) != 1 && Sent(p, b >> 1) != 0
  {
  }

  lemma {:induction false} StartBitIsHighest(p: byte, b: byte)
    requires p != 0 && OneBit(b) && Sent(p, b) <= 1
    ensures OneBit(HighBit(p, b)) && Sent(p, HighBit(p, b)) == 1
    ensures p > 1 ==> HighBit(p, b) != 1
    decreases b
  {
    if p & b == 0 {
      StartBitIsHighest(p, b >> 1);
    }
  }

  /** The listener after the pulses of a call. */
  function Heard(l: Listener, pulses: seq<Pulse>): Listener {
    if pulses == [] then l else Hear(l, pulses[0])
  }

  /** A call keeps the two in step, and nothing is lost or made up. */
  predicate Kept(s: Sender, next: byte, l: Listener) {
    var (t, pulses) := Call(s, next);
    var m := Heard(l, pulses);
    && |pulses| <= 1 && InStep(t, m)
    && m.text + InFlight(t) == l.text + InFlight(s) + (if Dequeues(s) && next != 0 then Typed(next) else [])
  }

  lemma {:induction false} SignalEnds(s: Sender, next: byte, l: Listener)
    requires InStep(s, l) && s.on
    ensures Kept(s, next, l)
  {
    hide Typed, HighBit, Length;
    assert Sent(s.pattern, 1) == s.pattern;
    Halved(s.bit);
  }

  lemma Halved(b: byte)
    requires OneBit(b)
    ensures b >> 1 == 0 <==> b == 1
  {
  }

  lemma {:induction false} SignalStarts(s: Sender, next: byte, l: Listener)
    requires InStep(s, l) && !s.on && !Dequeues(s)
    ensures Kept(s, next, l)
  {
    hide Typed, HighBit, Sent;
    Halved(s.bit);
    SentMore(s.pattern, s.bit);
  }

  lemma {:induction false} NothingNext(s: Sender, l: Listener)
    requires InStep(s, l) && Dequeues(s)
    ensures Kept(s, 0, l)
  {
    hide Typed, HighBit, Sent, Length;
  }

  lemma {:induction false} LetterStarts(s: Sender, next: byte, l: Listener)
    requires InStep(s, l) && Dequeues(s) && next != 0 && next != SPACE_CODE
    ensures Kept(s, next, l)
  {
    hide Typed, HighBit, Sent;
    var b := HighBit(next, 0x80);
    NothingSent(next);
    StartBitIsHighest(next, 0x80);
    Halved(b);
    SentMore(next, b);
  }

  lemma NothingSent(p: byte)
    ensures Sent(p, 0x80) <= 1
  {
  }

  lemma {:induction false} CallKeepsStep(s: Sender, next: byte, l: Listener)
    requires InStep(s, l) && next != SPACE_CODE
    ensures Kept(s, next, l)
  {
    hide Kept, InStep;
    IdleIsDark(s, l);
    if s.on {
      SignalEnds(s, next, l);
    } else if !Dequeues(s) {
      SignalStarts(s, next, l);
    } else if next == 0 {
      NothingNext(s, l);
    } else {
      LetterStarts(s, next, l);
    }
  }

  lemma IdleIsDark(s: Sender, l: Listener)
    requires InStep(s, l)
    ensures s.on ==> !Dequeues(s)
  {
  }

  // ---------------------------------------------------------------------
  //  The text arrives
  // ---------------------------------------------------------------------

  lemma {:induction false} SendableIsTyped(code: nat)
    requires Sendable(code)
    ensures Coded(code) != SPACE_CODE
    ensures KeyOf(code) == if Coded(code) != 0 then Typed(Coded(code)) else []
  {
    hide MorseHw, Find;
    if IsNewline(code) {
      EndSignIsFound();
    } else if code != 0 {
      PatternsDiffer(Index(code), 0);
      SpacePattern();
      NotZero(Index(code));
      FindReaches(Index(code), 0);
    }
  }

  /** The end sign is the seventh of the special keys. */
  lemma {:induction false} EndSignIsFound()
    ensures Find(END_CODE, 0) == Some(70)
  {
    NoPlace(END_CODE);
    FindPast(END_CODE, 0);
    assert Find(END_CODE, 68) == Some(70);
  }

  lemma NoPlace(pattern: byte)
    requires pattern == END_CODE
    ensures Place(pattern) == 64
  {
  }

  lemma {:induction false} FindPast(pattern: byte, j: nat)
    requires Place(pattern) == 64 && j <= 64
    ensures Find(pattern, j) == Find(pattern, 64)
    decreases 64 - j
  {
    hide MorseHw, Place;
    if j < 64 {
      PlaceOf(j);
      NotZero(j);
      FindPast(pattern, j + 1);
    }
  }

  lemma SpacePattern()
    ensures MorseHw(0) == SPACE_CODE
  {
  }

  lemma {:induction false} KeysOfRest(codes: seq<nat>)
    requires codes != []
    ensures KeysOf(codes) == KeyOf(codes[0]) + KeysOf(codes[1..])
  {
    hide KeyOf;
    var n := |codes| - 1;
    if n > 0 {
      KeysOfRest(codes[..n]);
      assert codes[..n][1..] == codes[1..][..n - 1];
    } else {
      assert codes[..0] == [] && codes[1..] == [];
    }
  }

  /** Sent, on its way and waiting: together all that was printed. */
  predicate Delivers(w: World, printed: seq<nat>) {
    && AllSendable(w.stdout) && InStep(w.sender, Listen(w.light))
    && Listen(w.light).text + InFlight(w.sender) + KeysOf(w.stdout) == KeysOf(printed)
  }

  lemma {:induction false} TimerDelivers(w: World, printed: seq<nat>)
    requires Delivers(w, printed)
    ensures Delivers(Happens(w, Timer), printed)
  {
    hide InStep, Call, Listen, Coded, KeyOf, KeysOf, Typed, Sendable, InFlight, Hear;
    var next, l := Next(w), Listen(w.light);
    if w.stdout != [] {
      SendableIsTyped(w.stdout[0]);
      KeysOfRest(w.stdout);
    }
    CallKeepsStep(w.sender, next, l);
    var (s, pulses) := Call(w.sender, next);
    if pulses != [] {
      ListenOn(w.light, pulses[0]);
      assert pulses == [pulses[0]];
    } else {
      assert w.light + pulses == w.light;
    }
  }

  lemma {:induction false} KeysOfMore(codes: seq<nat>, code: nat)
    ensures KeysOf(codes + [code]) == KeysOf(codes) + KeyOf(code)
  {
    hide KeyOf;
    assert (codes + [code])[..|codes|] == codes;
  }

  lemma {:induction false} PrintDelivers(w: World, printed: seq<nat>, code: nat)
    requires Delivers(w, printed) && Sendable(code)
    ensures Delivers(Happens(w, Print(code)), printed + [code])
  {
    hide InStep, Listen, KeyOf, KeysOf, Sendable, InFlight, Call, Coded;
    KeysOfMore(w.stdout, code);
    KeysOfMore(printed, code);
  }

  /** Whenever characters are printed between the calls, a listener has heard
      a prefix of them; the rest is on its way or waiting. */
  lemma {:induction false} TextArrives(events: seq<Event>)
    requires AllSendable(PrintedBy(events))
    ensures Delivers(Run(events), PrintedBy(events))
    decreases |events|
  {
    if events == [] {
      assert KeysOf([]) == [];
    } else {
      var n := |events| - 1;
      var before, e := events[..n], events[n];
      assert forall i :: 0 <= i < |PrintedBy(before)| ==> PrintedBy(before)[i] == PrintedBy(events)[i];
      TextArrives(before);
      match e {
        case Print(code) =>
          assert PrintedBy(events)[|PrintedBy(before)|] == code;
          PrintDelivers(Run(before), PrintedBy(before), code);
        case Timer =>
          assert PrintedBy(events) == PrintedBy(before);
          TimerDelivers(Run(before), PrintedBy(before));
      }
    }
  }

  // ---------------------------------------------------------------------
  //  Nothing waits for ever
  // ---------------------------------------------------------------------

  function Log(b: byte): nat {
    if b >= 128 then 7 else if b >= 64 then 6 else if b >= 32 then 5 else if b >= 16 then 4
    else if b >= 8 then 3 else if b >= 4 then 2 else if b >= 2 then 1 else 0
  }

  /** Calls left until the letter on its way is out. */
  function Left(s: Sender): (n: nat)
    ensures n < 16
  {
    if Dequeues(s) then 0 else 2 * Log(s.bit) + (if s.on then 1 else 0)
  }

  function Remaining(w: World): nat { 16 * |w.stdout| + Left(w.sender) }

  function Timers(w: World, n: nat): World
    decreases n
  {
    if n == 0 then w else Timers(Happens(w, Timer), n - 1)
  }

  lemma {:induction false} CallProgress(s: Sender, next: byte, l: Listener)
    requires InStep(s, l) && next != SPACE_CODE && !Dequeues(s)
    ensures Left(Call(s, next).0) < Left(s)
  {
    hide Typed, HighBit, Length, Sent;
    Halved(s.bit);
  }

  lemma {:induction false} RestsOn(s: Sender)
    requires Dequeues(s) && !s.on && (s.phase == IDLE || s.phase == CHARACTER)
    ensures Dequeues(Call(s, 0).0)
  {
    hide HighBit, Length;
  }

  lemma {:induction false} TimerProgress(w: World, printed: seq<nat>)
    requires Delivers(w, printed)
    ensures Remaining(Happens(w, Timer)) < Remaining(w) || Remaining(w) == 0 == Remaining(Happens(w, Timer))
  {
    hide Call, Listen, Coded, KeyOf, KeysOf, Typed, Sendable, InFlight, Hear, Dequeues;
    var s, l := w.sender, Listen(w.light);
    if w.stdout != [] {
      SendableIsTyped(w.stdout[0]);
    }
    if !Dequeues(s) {
      CallProgress(s, Next(w), l);
    } else if w.stdout == [] {
      AtRest(s, l);
      RestsOn(s);
    }
  }

  lemma AtRest(s: Sender, l: Listener)
    requires InStep(s, l) && Dequeues(s)
    ensures !s.on
  {
  }

  /** Sixteen calls a character, and everything printed has been heard. */
  lemma {:induction false} EverythingArrives(w: World, printed: seq<nat>, n: nat)
    requires Delivers(w, printed) && n >= Remaining(w)
    ensures Listen(Timers(w, n).light).text == KeysOf(printed)
    decreases n
  {
    hide Call, Listen, KeyOf, InStep, Typed, Happens;
    if n == 0 {
      NothingLeft(w);
      var text := Listen(w.light).text;
      assert KeysOf([]) == [] && text + [] + [] == text;
    } else {
      TimerDelivers(w, printed);
      TimerProgress(w, printed);
      EverythingArrives(Happens(w, Timer), printed, n - 1);
    }
  }

  lemma NothingLeft(w: World)
    requires Remaining(w) == 0 && InStep(w.sender, Listen(w.light))
    ensures w.stdout == [] && InFlight(w.sender) == []
  {
    hide Listen;
    if !Dequeues(w.sender) && !w.sender.on {
      Halved(w.sender.bit);
    }
  }

  /** Characters 33 to 95 are heard as they are. */
  lemma {:induction false} UpperCaseIsKept(codes: seq<nat>)
    requires forall i :: 0 <= i < |codes| ==> 33 <= codes[i] <= 95
    ensures AllSendable(codes) && |KeysOf(codes)| == |codes|
    ensures forall i :: 0 <= i < |codes| ==> KeysOf(codes)[i] == Character(codes[i])
    decreases |codes|
  {
    if codes != [] {
      UpperCaseIsKept(codes[..|codes| - 1]);
    }
  }

  // ---------------------------------------------------------------------
  //  Spaces
  // ---------------------------------------------------------------------

  lemma {:induction false} FindIs(pattern: byte, i: nat)
    requires i < 72
    ensures Find(pattern, i).Some? ==> Find(pattern, i).value < 72 && MorseHw(Find(pattern, i).value) == pattern
    decreases 72 - i
  {
    hide MorseHw;
    if i < 71 {
      FindIs(pattern, i + 1);
    }
  }

  /** No letter that a listener hears is a blank. */
  lemma {:induction false} NoBlankHeard(light: seq<Pulse>)
    ensures Character(32) !in Listen(light).text
  {
    if light != [] {
      var l := Listen(light[..|light| - 1]);
      NoBlankHeard(light[..|light| - 1]);
      FindIs(l.partial, 0);
      SpacePattern();
      hide MorseHw, Find;
      assert l.partial != 1 ==> Character(32) !in Typed(l.partial);
    }
  }

  lemma {:induction false} BlankIsExpected(codes: seq<nat>, i: nat)
    requires i < |codes| && IsBlank(codes[i])
    ensures Character(32) in KeysOf(codes)
    decreases |codes|
  {
    var n := |codes| - 1;
    if i == n {
      assert KeyOf(codes[n]) == [Character(32)];
    } else {
      BlankIsExpected(codes[..n], i);
    }
  }

  /** With n more calls a listener has typed exactly what was printed. */
  predicate HeardAfter(w: World, n: nat, printed: seq<nat>) {
    Listen(Timers(w, n).light).text == KeysOf(printed)
  }

  /** Whatever is printed, and whenever: in the end a listener has typed exactly
      that if and only if there was no space in it. */
  lemma {:induction false} HeardIfNoBlank(events: seq<Event>)
    ensures (exists n: nat :: HeardAfter(Run(events), n, PrintedBy(events))) <==> AllSendable(PrintedBy(events))
  {
    hide Listen, KeysOf, InFlight, InStep, IsBlank, Timers, Happens;
    if AllSendable(PrintedBy(events)) {
      TextArrives(events);
      var n := Remaining(Run(events));
      EverythingArrives(Run(events), PrintedBy(events), n);
      assert HeardAfter(Run(events), n, PrintedBy(events));
    } else {
      var i :| 0 <= i < |PrintedBy(events)| && !Sendable(PrintedBy(events)[i]);
      forall n: nat ensures !HeardAfter(Run(events), n, PrintedBy(events)) {
        BlankIsMissed(Run(events), n, PrintedBy(events), i);
      }
    }
  }

  lemma {:induction false} BlankIsMissed(w: World, n: nat, printed: seq<nat>, i: nat)
    requires i < |printed| && IsBlank(printed[i])
    ensures !HeardAfter(w, n, printed)
  {
    hide Listen, KeysOf, IsBlank, Timers;
    NoBlankHeard(Timers(w, n).light);
    BlankIsExpected(printed, i);
  }

  /** The start sign, light on or off, at some bit. */
  function Starting(bit: byte, on: bool): Sender { Sender(START, START_CODE, bit, on) }

  lemma {:induction false} BlankIsDequeued(code: nat)
    requires IsBlank(code)
    ensures Coded(code) == SPACE_CODE
  {
    SpacePattern();
    hide MorseHw;
  }

  lemma {:induction false} StartSignCalls(next: byte)
    ensures Call(Starting(0x0F, false), next) == (Starting(7, true), [Pulse(true, 3)])
    ensures Call(Starting(7, true), next) == (Starting(7, false), [Pulse(false, 1)])
    ensures Call(Starting(7, false), next) == (Starting(3, true), [Pulse(true, 3)])
    ensures Call(Starting(3, true), next) == (Starting(3, false), [Pulse(false, 1)])
    ensures Call(Starting(3, false), next) == (Starting(1, true), [Pulse(true, 3)])
    ensures Call(Starting(1, true), next) == (Sender(SPACE, START_CODE, 1, false), [Pulse(false, 7)])
  {
  }

  lemma {:induction false} ThreeDahsAreO()
    ensures Typed(15) == [Character(79)]
  {
    OPattern();
    FindReaches(47, 0);
  }

  lemma OPattern()
    ensures MorseHw(47) == 15
  {
  }

  /** How far sender and listener are with what a leading space starts. */
  predicate AtStage(s: Sender, l: Listener, k: nat) {
    if k == 0 then s.phase == IDLE && l == SILENCE
    else if k == 1 then s == Starting(0x0F, false) && l.partial == 1 && l.text == []
    else if k == 2 then s == Starting(7, true) && l == Listener(3, 0, [])
    else if k == 3 then s == Starting(7, false) && l == Listener(3, 1, [])
    else if k == 4 then s == Starting(3, true) && l == Listener(7, 0, [])
    else if k == 5 then s == Starting(3, false) && l == Listener(7, 1, [])
    else if k == 6 then s == Starting(1, true) && l == Listener(15, 0, [])
    else l.text != [] && l.text[0] == Character(79)
  }

  /** What a call adds, as the listener hears it: at most one pulse. */
  lemma {:induction false} OnePulse(s: Sender, next: byte)
    ensures |Call(s, next).1| <= 1
  {
    hide HighBit, Length;
  }

  lemma {:induction false} TimerHeard(w: World)
    ensures Listen(Happens(w, Timer).light) == Heard(Listen(w.light), Call(w.sender, Next(w)).1)
  {
    hide Listen, Hear, Next, Call;
    var pulses := Call(w.sender, Next(w)).1;
    OnePulse(w.sender, Next(w));
    if pulses == [] {
      assert w.light + pulses == w.light;
    } else {
      assert pulses == [pulses[0]];
      ListenOn(w.light, pulses[0]);
    }
  }

  lemma {:induction false} StageGoesOn(s: Sender, l: Listener, next: byte, k: nat)
    requires AtStage(s, l, k) && (k == 0 ==> next == SPACE_CODE)
    ensures var (t, pulses) := Call(s, next); AtStage(t, Heard(l, pulses), if k < 7 then k + 1 else k)
  {
    if k == 0 {
      hide Length, HighBit, Typed;
    } else if k < 7 {
      StartSignCalls(next);
      hide Call, Typed;
      ThreeDahsAreO();
      KeyedDahs();
    } else {
      hide Call, Typed;
    }
  }

  lemma KeyedDahs()
    ensures (1 as byte << 1) | 1 == 3 && (3 as byte << 1) | 1 == 7 && (7 as byte << 1) | 1 == 15
  {
  }

  /** A text that begins with a space, as it stands after any events. */
  ghost predicate Opening(w: World, printed: seq<nat>, k: nat) {
    k <= 7 && AtStage(w.sender, Listen(w.light), k) && (k == 0 ==> w.stdout == printed)
  }

  lemma {:induction false} TimerOpens(w: World, printed: seq<nat>, k: nat)
    requires Opening(w, printed, k) && (printed != [] ==> IsBlank(printed[0]))
    ensures Opening(Happens(w, Timer), printed, if printed == [] && k == 0 then 0 else if k < 7 then k + 1 else k)
  {
    hide Listen, Coded, IsBlank;
    TimerHeard(w);
    if k == 0 && printed == [] {
      hide AtStage, HighBit, Length;
      StillSilent(w.sender, Listen(w.light));
    } else {
      if k == 0 {
        BlankIsDequeued(printed[0]);
      }
      StageGoesOn(w.sender, Listen(w.light), Next(w), k);
    }
  }

  lemma {:induction false} StillSilent(s: Sender, l: Listener)
    requires AtStage(s, l, 0)
    ensures AtStage(Call(s, 0).0, Heard(l, Call(s, 0).1), 0)
  {
    hide HighBit, Length;
  }

  lemma {:induction false} OpensWithSpace(events: seq<Event>) returns (k: nat)
    requires PrintedBy(events) != [] ==> IsBlank(PrintedBy(events)[0])
    ensures Opening(Run(events), PrintedBy(events), k)
    decreases |events|
  {
    hide IsBlank, Call, AtStage;
    if events == [] {
      k := 0;
      SilentAtFirst();
    } else {
      var n := |events| - 1;
      var before, e := events[..n], events[n];
      var w := Run(before);
      assert PrintedBy(before) != [] ==> PrintedBy(before)[0] == PrintedBy(events)[0];
      k := OpensWithSpace(before);
      if e.Timer? {
        assert PrintedBy(events) == PrintedBy(before);
        TimerOpens(w, PrintedBy(before), k);
        k := if PrintedBy(before) == [] && k == 0 then 0 else if k < 7 then k + 1 else k;
      }
    }
  }

  lemma SilentAtFirst()
    ensures AtStage(RESET, Listen([]), 0)
  {
  }

  lemma {:induction false} StagesPass(w: World, printed: seq<nat>, k: nat, n: nat)
    requires Opening(w, printed, k) && printed != [] && IsBlank(printed[0]) && k + n >= 7
    ensures AtStage(Timers(w, n).sender, Listen(Timers(w, n).light), 7)
    decreases n
  {
    hide IsBlank, Call, AtStage, Listen, Happens;
    if n > 0 {
      TimerOpens(w, printed, k);
      StagesPass(Happens(w, Timer), printed, if k < 7 then k + 1 else k, n - 1);
    }
  }

  /** Every text that begins with a space is heard beginning with the letter O:
      of the start sign only the last bits are tried, each against all lower
      ones, so that three dahs are sent. Seven calls are enough. */
  lemma {:induction false} LeadingSpaceIsHeardAsO(events: seq<Event>)
    requires PrintedBy(events) != [] && IsBlank(PrintedBy(events)[0])
    ensures var heard := Listen(Run(events).light).text; heard == [] || heard[0] == Character(79)
    ensures forall n :: n >= 7 ==>
      Listen(Timers(Run(events), n).light).text != [] && Listen(Timers(Run(events), n).light).text[0] == Character(79)
  {
    hide IsBlank, Listen, Timers;
    var k := OpensWithSpace(events);
    forall n | n >= 7
      ensures Listen(Timers(Run(events), n).light).text != [] && Listen(Timers(Run(events), n).light).text[0] == Character(79)
    {
      StagesPass(Run(events), PrintedBy(events), k, n);
    }
  }
}
