/** What the packer writes, the loader loads; what is damaged does not boot. */
module BootRoundTrip {
  import opened Bytes
  import opened BootImage

  // ---------------------------------------------------------------------
  //  Bytes to words
  // ---------------------------------------------------------------------

  lemma {:induction false} WordsAppend(a: seq<u8>, b: seq<u8>)
    requires |a| % 4 == 0 && |b| % 4 == 0
    ensures Words(a + b) == Words(a) + Words(b)
    decreases |a|
  {
    if a == [] {
      assert a + b == b;
    } else {
      hide Unpack, Words;
      assert (a + b)[4..] == a[4..] + b;
      WordsAppend(a[4..], b);
      FirstWord(a);
      FirstWord(a + b);
    }
  }

  lemma {:induction false} FirstWord(s: seq<u8>)
    requires |s| % 4 == 0 && s != []
    ensures Words(s) == [Unpack(s[0], s[1], s[2], s[3])] + Words(s[4..])
  {
    hide Unpack;
  }

  lemma WordsPack(v: u32)
    ensures Words(Pack(v)) == [v]
  {
    UnpackPack(v);
    assert Pack(v)[4..] == [];
  }

  /** How an object begins in the image, byte by byte. */
  lemma {:induction false} HeaderBegins(p: Part)
    requires !p.Bitstream? && p.Small()
    ensures Header(p)[..4] == if p.Executable? then [0xE0, 0xAB, 0xF0, 0xA2] else [0x02, 0x65, 0xF0, 0xA2]
  {
    assert Pack(EXECUTABLE_MAGIC) == [0xE0, 0xAB, 0xF0, 0xA2];
    assert Pack(DATA_MAGIC) == [0x02, 0x65, 0xF0, 0xA2];
    hide Pack, Checksum, Padded;
  }

  /** One object as the loader sees it: its header and its payload. */
  function PartWords(p: Part): seq<u32>
    requires !p.Bitstream? && p.Small()
  {
    [p.Magic(), p.location, |Padded(p.obj)|, Checksum(Padded(p.obj))] + Words(Padded(p.obj))
  }

  lemma {:induction false} HeaderWords(p: Part)
    requires !p.Bitstream? && p.Small()
    ensures Words(Header(p)) == [p.Magic(), p.location, |Padded(p.obj)|, Checksum(Padded(p.obj))]
  {
    hide Pack;
    hide Checksum;
    var a, b, c, d := Pack(p.Magic()), Pack(p.location), Pack(|Padded(p.obj)|), Pack(Checksum(Padded(p.obj)));
    WordsAppend(a + b + c, d);
    WordsAppend(a + b, c);
    WordsAppend(a, b);
    WordsPack(p.Magic());
    WordsPack(p.location);
    WordsPack(|Padded(p.obj)|);
    WordsPack(Checksum(Padded(p.obj)));
  }

  lemma {:induction false} CombinedWords(dfu: seq<u8>, p: Part)
    requires |dfu| % 4 == 0 && !p.Bitstream? && p.Small()
    ensures |Combined(dfu, p)| % 4 == 0 && Words(Combined(dfu, p)) == Words(dfu) + PartWords(p)
  {
    hide Header;
    hide Padded;
    hide Checksum;
    HeaderWords(p);
    WordsAppend(dfu + Header(p), Padded(p.obj));
    WordsAppend(dfu, Header(p));
  }

  /** The image: a bitstream, the parts, and the word that ends it. */
  function Image(dfu: seq<u8>, parts: seq<Part>): seq<u8>
    requires forall i :: 0 <= i < |parts| ==> parts[i].Small()
    decreases |parts|
  {
    if parts == [] then dfu + Pack(0xFFFF_FFFF) else Image(Combined(dfu, parts[0]), parts[1..])
  }

  predicate Objects(parts: seq<Part>) {
    forall i :: 0 <= i < |parts| ==> !parts[i].Bitstream? && parts[i].Small()
  }

  function AllWords(parts: seq<Part>): seq<u32>
    requires Objects(parts)
    decreases |parts|
  {
    if parts == [] then [0xFFFF_FFFF] else PartWords(parts[0]) + AllWords(parts[1..])
  }

  lemma {:induction false} ImageWords(dfu: seq<u8>, parts: seq<Part>)
    requires |dfu| % 4 == 0 && Objects(parts)
    ensures |Image(dfu, parts)| % 4 == 0
    ensures Words(Image(dfu, parts)) == Words(dfu) + AllWords(parts)
    decreases |parts|
  {
    hide PartWords;
    hide Combined;
    if parts == [] {
      WordsAppend(dfu, Pack(0xFFFF_FFFF));
      WordsPack(0xFFFF_FFFF);
    } else {
      CombinedWords(dfu, parts[0]);
      ImageWords(Combined(dfu, parts[0]), parts[1..]);
      assert Words(dfu) + (PartWords(parts[0]) + AllWords(parts[1..])) == Words(dfu) + PartWords(parts[0]) + AllWords(parts[1..]);
    }
  }

  // ---------------------------------------------------------------------
  //  Loading an undamaged image
  // ---------------------------------------------------------------------

  predicate Boots(p: Part)
    requires p.Small()
  {
    p.Executable? && InSram(p.location, |Padded(p.obj)|)
  }

  /** What one undamaged object does to the loader. */
  function Placed(s: Loader, p: Part): Loader
    requires !p.Bitstream? && p.Small()
  {
    Loader(if Boots(p) then p.location else s.runtime, Stored(s.mem, p.location, Words(Padded(p.obj))))
  }

  function AllPlaced(s: Loader, parts: seq<Part>): Loader
    requires Objects(parts)
    decreases |parts|
  {
    if parts == [] then s else AllPlaced(Placed(s, parts[0]), parts[1..])
  }

  lemma SumVanishes(total: int)
    ensures ((0 - total) % TWO32 + total) % TWO32 == 0
  {
    AddMod(0 - total, total);
  }

  lemma {:induction false} LoadPart(s: Loader, p: Part, rest: seq<u32>)
    requires !p.Bitstream? && p.Small()
    ensures Load(PartWords(p) + rest, s) == Load(rest, Placed(s, p))
  {
    hide Sum;
    hide Stored;
    hide InSram;
    hide Words;
    var payload := Words(Padded(p.obj));
    var w := PartWords(p) + rest;
    assert Count(|Padded(p.obj)|) == |payload|;
    assert w[4..4 + |payload|] == payload;
    assert w[4 + |payload|..] == rest;
    SumVanishes(Sum(payload));
  }

  lemma {:induction false} LoadParts(s: Loader, parts: seq<Part>)
    requires Objects(parts)
    ensures Load(AllWords(parts), s) == Some(AllPlaced(s, parts))
    decreases |parts|
  {
    hide PartWords;
    hide Placed;
    if parts != [] {
      LoadPart(s, parts[0], AllWords(parts[1..]));
      LoadParts(Placed(s, parts[0]), parts[1..]);
    }
  }

  // ---------------------------------------------------------------------
  //  Where everything ends up
  // ---------------------------------------------------------------------

  /** The memory an object takes, without wrapping round. */
  predicate Inside(p: Part, a: int)
    requires !p.Bitstream? && p.Small()
  {
    p.location <= a < p.location + |Padded(p.obj)|
  }

  predicate Unwrapped(p: Part)
    requires !p.Bitstream? && p.Small()
  {
    p.location + |Padded(p.obj)| <= TWO32
  }

  lemma {:induction false} StoredAt(mem: map<int, u32>, dst: u32, w: seq<u32>)
    requires dst + 4 * |w| <= TWO32
    ensures forall k :: 0 <= k < |w| ==> dst + 4 * k in Stored(mem, dst, w) && Stored(mem, dst, w)[dst + 4 * k] == w[k]
    ensures forall a :: !(dst <= a < dst + 4 * |w|) ==> (a in Stored(mem, dst, w) <==> a in mem)
    ensures forall a :: !(dst <= a < dst + 4 * |w|) && a in mem ==> Stored(mem, dst, w)[a] == mem[a]
    decreases |w|
  {
    if w != [] {
      var n := |w| - 1;
      StoredAt(mem, dst, w[..n]);
      assert Address(dst, n) == dst + 4 * n;
    }
  }

  ghost predicate Apart(parts: seq<Part>)
    requires Objects(parts)
  {
    && (forall i :: 0 <= i < |parts| ==> Unwrapped(parts[i]))
    && (forall i, j, a :: 0 <= i < j < |parts| && Inside(parts[i], a) ==> !Inside(parts[j], a))
  }

  /** The object is in memory, zero padding included. */
  predicate InMemory(mem: map<int, u32>, p: Part)
    requires !p.Bitstream? && p.Small()
  {
    var w := Words(Padded(p.obj));
    forall k :: 0 <= k < |w| ==> p.location + 4 * k in mem && mem[p.location + 4 * k] == w[k]
  }

  lemma PlacedInMemory(s: Loader, p: Part)
    requires !p.Bitstream? && p.Small() && Unwrapped(p)
    ensures InMemory(Placed(s, p).mem, p)
  {
    StoredAt(s.mem, p.location, Words(Padded(p.obj)));
  }

  lemma PlacedElsewhere(s: Loader, p: Part, q: Part)
    requires !p.Bitstream? && p.Small() && Unwrapped(p) && !q.Bitstream? && q.Small() && Unwrapped(q)
    requires forall a :: Inside(q, a) ==> !Inside(p, a)
    requires InMemory(s.mem, q)
    ensures InMemory(Placed(s, p).mem, q)
  {
    StoredAt(s.mem, p.location, Words(Padded(p.obj)));
    var w := Words(Padded(q.obj));
    forall k | 0 <= k < |w|
      ensures q.location + 4 * k in Placed(s, p).mem && Placed(s, p).mem[q.location + 4 * k] == w[k]
    {
      assert Inside(q, q.location + 4 * k);
    }
  }

  lemma {:induction false} StaysInMemory(s: Loader, parts: seq<Part>, q: Part)
    requires Objects(parts) && Objects([q] + parts) && Apart([q] + parts)
    requires !q.Bitstream? && q.Small() && InMemory(s.mem, q)
    ensures InMemory(AllPlaced(s, parts).mem, q)
    decreases |parts|
  {
    hide Placed;
    hide InMemory;
    if parts != [] {
      var all := [q] + parts;
      assert all[0] == q && all[1] == parts[0];
      PlacedElsewhere(s, parts[0], q);
      var fewer := [q] + parts[1..];
      assert forall i :: 1 <= i < |fewer| ==> fewer[i] == all[i + 1];
      StaysInMemory(Placed(s, parts[0]), parts[1..], q);
    }
  }

  lemma {:induction false} ApartTail(parts: seq<Part>)
    requires Objects(parts) && Apart(parts) && parts != []
    ensures Objects(parts[1..]) && Apart(parts[1..])
    ensures !parts[0].Bitstream? && parts[0].Small() && Unwrapped(parts[0])
    ensures forall p :: p in parts ==> !p.Bitstream? && p.Small()
  {
    hide Inside, Unwrapped;
    var tail := parts[1..];
    assert forall j :: 0 <= j < |tail| ==> tail[j] == parts[j + 1];
  }

  lemma PlacesFirst(s: Loader, parts: seq<Part>)
    requires Objects(parts) && parts != []
    ensures AllPlaced(s, parts) == AllPlaced(Placed(s, parts[0]), parts[1..])
  {
    hide Placed;
  }

  lemma {:induction false} EveryPartInMemory(s: Loader, parts: seq<Part>, i: nat)
    requires Objects(parts) && Apart(parts) && i < |parts|
    ensures InMemory(AllPlaced(s, parts).mem, parts[i])
    decreases |parts|
  {
    hide Placed, InMemory, Apart, Objects, AllPlaced;
    var tail := parts[1..];
    ApartTail(parts);
    PlacesFirst(s, parts);
    if i == 0 {
      PlacedInMemory(s, parts[0]);
      assert [parts[0]] + tail == parts;
      StaysInMemory(Placed(s, parts[0]), tail, parts[0]);
    } else {
      EveryPartInMemory(Placed(s, parts[0]), tail, i - 1);
    }
  }

  lemma {:induction false} OneExecutable(s: Loader, parts: seq<Part>, e: nat)
    requires Objects(parts) && e < |parts| && Boots(parts[e])
    requires forall i :: e < i < |parts| ==> !Boots(parts[i])
    ensures AllPlaced(s, parts).runtime == parts[e].location
    decreases |parts|
  {
    var tail := parts[1..];
    assert forall j :: 0 <= j < |tail| ==> tail[j] == parts[j + 1];
    if e == 0 {
      NoExecutable(Placed(s, parts[0]), tail);
    } else {
      OneExecutable(Placed(s, parts[0]), tail, e - 1);
    }
  }

  /** An executable that fits into main memory is started, unless it ends
      exactly where the memory ends. */
  lemma {:induction false} LastByteIsNotForCode(obj: seq<u8>, location: u32, mem: map<int, u32>)
    requires |obj| <= 0x7FFF_FFFC
    requires 0x1000_0000 <= location && location + |Padded(obj)| <= 0x1001_0000
    ensures var p := Executable(obj, location);
      var r := Load(AllWords([p]), Loader(0, mem));
      r.Some? && r.value.runtime == if location + |Padded(obj)| == 0x1001_0000 then 0 else location
  {
    var p := Executable(obj, location);
    var s := Loader(0, mem);
    assert Boots(p) <==> location + |Padded(obj)| < SRAM_BASE + SRAM_SIZE;
    hide Boots, Padded, Load, AllWords, AllPlaced, Placed;
    LoadParts(s, [p]);
    if Boots(p) {
      OneExecutable(s, [p], 0);
    } else {
      NoExecutable(s, [p]);
    }
  }

  lemma {:induction false} NoExecutable(s: Loader, parts: seq<Part>)
    requires Objects(parts) && forall i :: 0 <= i < |parts| ==> !Boots(parts[i])
    ensures AllPlaced(s, parts).runtime == s.runtime
    decreases |parts|
  {
    if parts != [] {
      NoExecutable(Placed(s, parts[0]), parts[1..]);
    }
  }

  /** The round trip. Whatever bitstream comes first and whatever memory holds,
      loading the words behind the bitstream ends, puts every padded object at
      its address, and starts the last executable that lies in main memory. */
  lemma RoundTrip(bitstream: seq<u8>, parts: seq<Part>, mem: map<int, u32>, e: nat)
    requires Part.Bitstream(bitstream).Small() && Objects(parts) && Apart(parts)
    requires e < |parts| && Boots(parts[e]) && forall i :: e < i < |parts| ==> !Boots(parts[i])
    ensures var dfu := Combined([], Part.Bitstream(bitstream));
      var image := Image(dfu, parts);
      && |dfu| % 4 == 0 && |image| % 4 == 0 && |dfu| <= |image|
      && var r := Load(Words(image)[|dfu| / 4..], Loader(0, mem));
         r.Some? && r.value.runtime == parts[e].location
         && forall i :: 0 <= i < |parts| ==> InMemory(r.value.mem, parts[i])
  {
    hide Placed;
    hide InMemory;
    hide PartWords;
    var dfu := Combined([], Part.Bitstream(bitstream));
    ImageWords(dfu, parts);
    assert Words(Image(dfu, parts))[|dfu| / 4..] == AllWords(parts);
    LoadParts(Loader(0, mem), parts);
    OneExecutable(Loader(0, mem), parts, e);
    forall i | 0 <= i < |parts| ensures InMemory(AllPlaced(Loader(0, mem), parts).mem, parts[i]) {
      EveryPartInMemory(Loader(0, mem), parts, i);
    }
  }

  // ---------------------------------------------------------------------
  //  Any image, damaged or not
  // ---------------------------------------------------------------------

  /** An object as found in an image. */
  datatype Found = Found(magic: u32, dst: u32, len: u32, check: u32, payload: seq<u32>)

  predicate Complete(f: Found) {
    IsMagic(f.magic) && |f.payload| == Count(f.len)
  }

  function FoundWords(f: Found): seq<u32> {
    [f.magic, f.dst, f.len, f.check] + f.payload
  }

  /** All images that can be read at all: objects, then a word that starts no
      object, then anything. */
  function ImageOf(fs: seq<Found>, rest: seq<u32>): seq<u32> {
    if fs == [] then rest else FoundWords(fs[0]) + ImageOf(fs[1..], rest)
  }

  predicate Readable(fs: seq<Found>, rest: seq<u32>) {
    (forall i :: 0 <= i < |fs| ==> Complete(fs[i])) && rest != [] && !IsMagic(rest[0])
  }

  predicate Sound(f: Found) {
    (f.check + Sum(f.payload)) % TWO32 == 0
  }

  predicate Bootable(f: Found) {
    f.magic == EXECUTABLE_MAGIC && InSram(f.dst, f.len)
  }

  lemma LoadFound(s: Loader, f: Found, rest: seq<u32>)
    requires Complete(f)
    ensures Load(FoundWords(f) + rest, s) == Load(rest, LoadOne(s, f.magic, f.dst, f.len, f.check, f.payload))
  {
    hide LoadOne;
    var w := FoundWords(f) + rest;
    assert w[4..4 + |f.payload|] == f.payload;
    assert w[4 + |f.payload|..] == rest;
  }

  /** Exactly when an image boots, and where: the last executable in main
      memory is started, if it and every object after it sum to zero. */
  lemma {:induction false} BootsExactlyWhen(fs: seq<Found>, rest: seq<u32>, s: Loader)
    requires Readable(fs, rest)
    ensures var r := Load(ImageOf(fs, rest), s);
      && r.Some?
      && ((exists i :: 0 <= i < |fs| && Bootable(fs[i])) ==>
            var e := LastBootable(fs);
            r.value.runtime == if forall i :: e <= i < |fs| ==> Sound(fs[i]) then fs[e].dst else 0)
      && (!(exists i :: 0 <= i < |fs| && Bootable(fs[i])) ==>
            r.value.runtime == if forall i :: 0 <= i < |fs| ==> Sound(fs[i]) then s.runtime else 0)
    decreases |fs|
  {
    hide FoundWords;
    hide InSram;
    hide Sum;
    hide Stored;
    if fs == [] {
      assert ImageOf(fs, rest) == rest;
    } else {
      var f, tail := fs[0], fs[1..];
      var s1 := LoadOne(s, f.magic, f.dst, f.len, f.check, f.payload);
      LoadFound(s, f, ImageOf(tail, rest));
      assert forall i :: 0 <= i < |tail| ==> tail[i] == fs[i + 1];
      BootsExactlyWhen(tail, rest, s1);
      LastOfTail(fs);
    }
  }

  /** Index of the last bootable object, 0 if there is none. */
  function LastBootable(fs: seq<Found>): (e: nat)
    ensures (exists i :: 0 <= i < |fs| && Bootable(fs[i])) ==> e < |fs| && Bootable(fs[e])
    ensures forall i :: e < i < |fs| ==> !Bootable(fs[i])
  {
    if fs == [] then 0
    else if Bootable(fs[|fs| - 1]) then |fs| - 1
    else LastBootable(fs[..|fs| - 1])
  }

  lemma LastOfTail(fs: seq<Found>)
    requires fs != []
    ensures (exists i :: 1 <= i < |fs| && Bootable(fs[i])) ==> LastBootable(fs) == LastBootable(fs[1..]) + 1
    ensures !(exists i :: 1 <= i < |fs| && Bootable(fs[i])) ==> LastBootable(fs) == 0
  {
    var tail := fs[1..];
    assert forall i :: 0 <= i < |tail| ==> tail[i] == fs[i + 1];
    if k :| 1 <= k < |fs| && Bootable(fs[k]) {
      assert Bootable(tail[k - 1]);
      var e, d := LastBootable(fs), LastBootable(tail);
      assert Bootable(fs[d + 1]);
    }
  }

  lemma {:induction false} SumChange(a: seq<u32>, b: seq<u32>, i: nat)
    requires |a| == |b| && i < |a| && forall j :: 0 <= j < |a| && j != i ==> a[j] == b[j]
    ensures Sum(a) - Sum(b) == a[i] as int - b[i] as int
    decreases |a|
  {
    var n := |a| - 1;
    if i == n {
      assert a[..n] == b[..n];
    } else {
      SumChange(a[..n], b[..n], i);
    }
  }

  /** Changing one word of a payload makes a sound object unsound. */
  lemma DamagedWordIsNoticed(f: Found, g: Found, i: nat)
    requires g.check == f.check && |g.payload| == |f.payload| && i < |f.payload|
    requires g.payload[i] != f.payload[i] && forall j :: 0 <= j < |f.payload| && j != i ==> g.payload[j] == f.payload[j]
    requires Sound(f)
    ensures !Sound(g)
  {
    SumChange(g.payload, f.payload, i);
    SmallDifference(f.check + Sum(f.payload), g.payload[i] as int - f.payload[i] as int);
  }

  lemma SmallDifference(x: int, d: int)
    requires x % TWO32 == 0 && d != 0 && -TWO32 < d < TWO32
    ensures (x + d) % TWO32 != 0
  {
    AddMod(x, d);
  }
}
