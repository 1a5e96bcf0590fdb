/**
 Head, cache, parser and host in one system: what passes under the head is the
 host's sector.
*/
module DiskTogether {
  import opened Bytes
  import opened DiskNibbles
  import opened DiskStream
  import opened DiskCache
  import opened DiskHead
  import R = DiskRuns
  import C = DiskCoherence

  datatype World = World(head: Head, host: C.System)

  /** A call of the head routine, with the host's answer should it ask for a
      sector; anything else that happens to the cache; an arm driven against
      track 0. */
  datatype Event =
    | Byte(drive: nat, arm: byte, rwtsTrack: byte, rwtsSector: nat, room: nat, answer: seq<Token>)
    | Host(e: C.Event)
    | Zero

  function TickOf(w: World, e: Event): Tick
    requires e.Byte?
  {
    Tick(e.drive, e.arm, e.rwtsTrack, e.rwtsSector, w.host.c, e.room)
  }

  /** The call finds its sector missing. */
  predicate Misses(w: World, e: Event)
    requires Sound(w.head) && e.Byte? && Possible(w.head, TickOf(w, e))
  {
    var k := TickOf(w, e);
    && (w.head.track != TrackOf(k.arm) || w.head.phase.Idle?)
    && IsCached(k.cache, k.drive, TrackOf(k.arm), NextSector(w.head, k)).None?
  }

  /** The request a call makes. */
  function AskOf(w: World, e: Event): C.Event
    requires Sound(w.head) && e.Byte? && Possible(w.head, TickOf(w, e))
  {
    C.Ask(e.drive, TrackOf(e.arm), NextSector(w.head, TickOf(w, e)), e.room, e.answer)
  }

  predicate CanHappen(w: World, e: Event)
    requires Sound(w.head)
  {
    match e
    case Byte(_, _, _, _, _, _) => Possible(w.head, TickOf(w, e)) && (Misses(w, e) ==> C.Possible(w.host, AskOf(w, e)))
    case Host(x) => C.Possible(w.host, x)
    case Zero => true
  }

  predicate Patient(w: World, e: Event)
    requires Sound(w.head) && CanHappen(w, e)
  {
    match e
    case Byte(_, _, _, _, _, _) => Misses(w, e) ==> C.Patient(w.host, AskOf(w, e))
    case Host(x) => C.Patient(w.host, x)
    case Zero => true
  }

  /** A new disk also drops the sector in progress. */
  function Step(w: World, e: Event): (r: Option<World>)
    requires Sound(w.head) && CanHappen(w, e)
    ensures r.Some? ==> Sound(r.value.head)
  {
    match e
    case Byte(_, _, _, _, _, _) =>
      var h := Call(w.head, TickOf(w, e)).head;
      if !Misses(w, e) then Some(World(h, w.host))
      else
        var y := C.Do(w.host, AskOf(w, e));
        if y.None? then None else Some(World(h, y.value))
    case Host(x) =>
      var y := C.Do(w.host, x);
      if y.None? then None
      else Some(World(if x.NewDisk? then Restarted(w.head, false) else w.head, y.value))
    case Zero => Some(w.(head := Restarted(w.head, true)))
  }

  /** The cache of the system is the cache the head leaves, and the command the
      host reads is the one the head sends. */
  lemma {:induction false} CacheIsShared(w: World, e: Event)
    requires Sound(w.head) && e.Byte? && CanHappen(w, e) && Step(w, e).Some?
    ensures Step(w, e).value.host.c == Call(w.head, TickOf(w, e)).cache
    ensures Call(w.head, TickOf(w, e)).command
      == if Misses(w, e) && C.Sends(w.host, AskOf(w, e)) then Some(C.Sent(w.host, AskOf(w, e))) else None
  {
    hide CacheRequest, StreamAt, IsCached, TrackOf;
  }

  ghost predicate Happens(w: World, es: seq<Event>)
    requires Sound(w.head)
    decreases |es|
  {
    es == [] || (CanHappen(w, es[0]) && (Step(w, es[0]).Some? ==> Happens(Step(w, es[0]).value, es[1..])))
  }

  ghost predicate PatientRun(w: World, es: seq<Event>)
    requires Sound(w.head) && Happens(w, es)
    decreases |es|
  {
    es == [] || (Patient(w, es[0]) && (Step(w, es[0]).Some? ==> PatientRun(Step(w, es[0]).value, es[1..])))
  }

  function After(w: World, es: seq<Event>): (r: Option<World>)
    requires Sound(w.head) && Happens(w, es)
    ensures r.Some? ==> Sound(r.value.head)
    decreases |es|
  {
    if es == [] then Some(w)
    else if Step(w, es[0]).None? then None
    else After(Step(w, es[0]).value, es[1..])
  }

  /** The bytes written to the disk data register. */
  function Written(w: World, es: seq<Event>): seq<byte>
    requires Sound(w.head) && Happens(w, es)
    decreases |es|
  {
    if es == [] then []
    else
      (if es[0].Byte? then [Call(w.head, TickOf(w, es[0])).out] else [])
      + if Step(w, es[0]).None? then [] else Written(Step(w, es[0]).value, es[1..])
  }

  // ---------------------------------------------------------------------
  //  The head's side of a run
  // ---------------------------------------------------------------------

  /** No disk is changed and the arm stays on a track. */
  predicate Undisturbed(es: seq<Event>, track: byte) {
    forall i :: 0 <= i < |es| ==>
      && !es[i].Zero? && !(es[i].Host? && es[i].e.NewDisk?)
      && (es[i].Byte? ==> es[i].arm <= 68 && IsOver(es[i].arm, track))
  }

  /** The calls of a run, each with the cache it meets. */
  function Calls(w: World, es: seq<Event>): seq<R.Event>
    requires Sound(w.head) && Happens(w, es)
    decreases |es|
  {
    if es == [] then []
    else
      (if es[0].Byte? then [R.Byte(TickOf(w, es[0]))] else [])
      + if Step(w, es[0]).None? then [] else Calls(Step(w, es[0]).value, es[1..])
  }

  lemma {:induction false} CallsAreStill(w: World, es: seq<Event>, track: byte)
    requires Sound(w.head) && Happens(w, es) && Undisturbed(es, track)
    ensures R.ArmStill(Calls(w, es), track)
    ensures R.Allowed(w.head, Calls(w, es)) && R.Emitted(w.head, Calls(w, es)) == Written(w, es)
    decreases |es|
  {
    hide Call, Misses, AskOf, C.Do, C.Possible, TrackOf;
    if es != [] && Step(w, es[0]).Some? {
      var z := Step(w, es[0]).value;
      assert forall i :: 0 <= i < |es[1..]| ==> es[1..][i] == es[i + 1];
      CallsAreStill(z, es[1..], track);
      var rest := Calls(z, es[1..]);
      if es[0].Byte? {
        var b := R.Byte(TickOf(w, es[0]));
        assert Calls(w, es) == [b] + rest && ([b] + rest)[1..] == rest;
        assert R.React(w.head, b) == z.head;
      } else {
        assert Calls(w, es) == rest && z.head == w.head;
        assert Written(w, es) == Written(z, es[1..]);
      }
    }
  }

  lemma {:induction false} FirstCall(w: World, es: seq<Event>)
    requires Sound(w.head) && Happens(w, es) && es != [] && es[0].Byte?
    ensures Calls(w, es) != [] && Calls(w, es)[0] == R.Byte(TickOf(w, es[0]))
  {
  }

  // ---------------------------------------------------------------------
  //  The cache's side
  // ---------------------------------------------------------------------

  lemma {:induction false} StepKeeps(w: World, e: Event)
    requires Sound(w.head) && CanHappen(w, e) && Patient(w, e) && C.Inv(w.host)
    ensures Step(w, e).Some? && C.Inv(Step(w, e).value.host)
  {
    hide Call, Misses, AskOf, C.Do, C.Possible, C.Patient, C.Inv;
    if e.Byte? {
      if Misses(w, e) {
        C.EventKeeps(w.host, AskOf(w, e));
      }
    } else if e.Host? {
      C.EventKeeps(w.host, e.e);
    }
  }

  lemma {:induction false} RunKeeps(w: World, es: seq<Event>)
    requires Sound(w.head) && Happens(w, es) && PatientRun(w, es) && C.Inv(w.host)
    ensures After(w, es).Some? && C.Inv(After(w, es).value.host)
    decreases |es|
  {
    hide Step, CanHappen, Patient, C.Inv;
    if es != [] {
      StepKeeps(w, es[0]);
      RunKeeps(Step(w, es[0]).value, es[1..]);
    }
  }

  lemma {:induction false} CachedIsHosts(y: C.System, track: byte, s: nat)
    requires C.Inv(y) && s < 16 && IsCached(y.c, 0, track, s).Some?
    ensures IsCached(y.c, 0, track, s).value == y.img(track, s)
  {
  }

  // ---------------------------------------------------------------------
  //  End to end
  // ---------------------------------------------------------------------

  /** Head, firmware and host run together, first in any way at all, then long
      enough for one sector with the arm still over a track and the same disk.
      If the idle head finds the sector it seeks in the cache, what passes under
      it is read back as the host's sector of that track, under its address. */
  lemma {:induction false} HostSectorPasses(start: World, before: seq<Event>, es: seq<Event>, track: byte)
    requires Sound(start.head) && C.Inv(start.host)
    requires Happens(start, before) && PatientRun(start, before)
    requires After(start, before).Some? && Happens(After(start, before).value, es)
    requires var w := After(start, before).value;
      && es != [] && es[0].Byte? && es[0].drive == 0 && w.head.phase.Idle?
      && Undisturbed(es, track) && |Calls(w, es)| == STREAM_SIZE
      && SectorSought(w.head, TickOf(w, es[0]), track) < 16
      && IsCached(w.host.c, 0, track, SectorSought(w.head, TickOf(w, es[0]), track)).Some?
    ensures var w := After(start, before).value;
      var s := SectorSought(w.head, TickOf(w, es[0]), track);
      ReadSector(Written(w, es))
        == Some(Found(Address(w.host.c.volumes[0], track, LogicalToPhysical(s)), w.host.img(track, s)))
  {
    hide After, Happens, PatientRun, Written, Calls, Undisturbed, C.Inv, SectorSought, ReadSector, IsCached, R.Emitted, R.After;
    RunKeeps(start, before);
    var w := After(start, before).value;
    FirstCall(w, es);
    CallsAreStill(w, es, track);
    CachedIsHosts(w.host, track, SectorSought(w.head, TickOf(w, es[0]), track));
    R.SectorPasses(w.head, Calls(w, es), track);
  }
}
