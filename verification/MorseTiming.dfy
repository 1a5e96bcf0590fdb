/**
 How long the light is on and off: Part I of Annex 1 of Recommendation
 ITU-R M.1677-1, section 2, with a dit as the unit.
*/
module MorseTiming {
  import opened Bytes
  import opened Morse
  import opened MorseSend
  import opened MorseRuns

  /** A watch on the light: whether a letter has begun, how long it has been
      dark since the last signal, and whether all has been as it should: dits of
      1 and dahs of 3 units, 1 unit of darkness between the signals of a letter
      and 3 or more between letters. */
  datatype Watch = Watch(inLetter: bool, dark: nat, good: bool)

  function See(t: Watch, p: Pulse): Watch {
    if p.on then Watch(true, 0, t.good && (p.units == 1 || p.units == 3) && (t.inLetter ==> t.dark == 1))
    else
      var dark := t.dark + p.units;
      if !t.inLetter || dark == 1 then t.(dark := dark)
      else if dark == 3 then Watch(false, 3, t.good)
      else t.(dark := dark, good := false)
  }

  function Watched(light: seq<Pulse>): Watch {
    if light == [] then Watch(false, 0, true) else See(Watched(light[..|light| - 1]), light[|light| - 1])
  }

  lemma {:induction false} WatchedOn(light: seq<Pulse>, p: Pulse)
    ensures Watched(light + [p]) == See(Watched(light), p)
  {
    assert (light + [p])[..|light|] == light;
  }

  predicate InTempo(s: Sender, t: Watch) {
    && t.good
    && (s.on ==> t.inLetter && t.dark == 0)
    && (!s.on && !Dequeues(s) ==> t.inLetter ==> t.dark == 1)
    && (Dequeues(s) ==> !t.inLetter)
  }

  lemma {:induction false} CallKeepsTempo(s: Sender, next: byte, l: Listener, t: Watch)
    requires InStep(s, l) && next != SPACE_CODE && InTempo(s, t)
    ensures var (z, pulses) := Call(s, next);
      |pulses| <= 1 && InTempo(z, if pulses == [] then t else See(t, pulses[0]))
  {
    CallKeepsStep(s, next, l);
    hide HighBit, Sent, Typed, Hear;
    if s.on {
      Halved(s.bit);
    }
    if next > 1 {
      NothingSent(next);
      StartBitIsHighest(next, 0x80);
      Halved(HighBit(next, 0x80));
    }
  }

  /** Whatever is printed without a space, and however the calls fall, the light
      keeps the standard's times. */
  lemma {:induction false} TempoIsKept(events: seq<Event>)
    requires AllSendable(PrintedBy(events))
    ensures InTempo(Run(events).sender, Watched(Run(events).light))
    decreases |events|
  {
    hide InStep, InTempo, Call, Coded, Sendable, Delivers, Listen, See;
    if events == [] {
      assert InTempo(RESET, Watched([])) by { Beginning(); }
    } else {
      var n := |events| - 1;
      SendableBefore(events);
      TempoIsKept(events[..n]);
      if events[n].Timer? {
        var w := Run(events[..n]);
        StepIsKept(events[..n]);
        CallKeepsTempo(w.sender, Next(w), Listen(w.light), Watched(w.light));
        var (z, pulses) := Call(w.sender, Next(w));
        if pulses != [] {
          WatchedOn(w.light, pulses[0]);
          assert pulses == [pulses[0]];
        } else {
          assert w.light + pulses == w.light;
        }
      }
    }
  }

  lemma Beginning()
    ensures InTempo(RESET, Watched([]))
  {
  }

  lemma {:induction false} SendableBefore(events: seq<Event>)
    requires events != [] && AllSendable(PrintedBy(events))
    ensures AllSendable(PrintedBy(events[..|events| - 1]))
  {
    hide Sendable;
    var before := PrintedBy(events[..|events| - 1]);
    assert before <= PrintedBy(events);
  }

  lemma {:induction false} StepIsKept(events: seq<Event>)
    requires AllSendable(PrintedBy(events))
    ensures var w := Run(events); InStep(w.sender, Listen(w.light)) && Next(w) != SPACE_CODE
  {
    TextArrives(events);
    var w := Run(events);
    if w.stdout != [] {
      SendableIsTyped(w.stdout[0]);
    }
  }

  /** A space in a text makes the darkness behind the letter before it seven
      units, as between words. */
  lemma {:induction false} WordGapIsSeven(s: Sender)
    requires s.phase == CHARACTER && s.on && s.bit == 1
    ensures var (z, end) := Call(s, 0);
      var (_, gap) := Call(z, SPACE_CODE);
      |end| == |gap| == 1 && !end[0].on && !gap[0].on && end[0].units + gap[0].units == 7
  {
  }

  /** When there is nothing more to send the light stays dark, each time for
      more than two word gaps. */
  lemma {:induction false} PauseIsFifteen(s: Sender)
    requires s.phase == CHARACTER && !s.on && s.bit >> 1 == 0
    ensures var (z, pulses) := Call(s, 0);
      pulses == [Pulse(false, 15)] && z.phase == CHARACTER && Dequeues(z)
  {
  }

  /** A small letter is heard as the capital. */
  lemma LowerCaseIsHeard(code: nat)
    requires 97 <= code <= 122
    ensures KeyOf(code) == [Character(code - 32)]
  {
  }
}
