/**
 The boot image: `combine`, `checksum` and `int_to_bytes` of
 bin/genruntime.py write it, `load_runtime` of sw/src/bios.c reads it.
*/
module BootImage {
  import opened Bytes

  const TWO32 := 0x1_0000_0000
  const SRAM_BASE := 0x1000_0000
  const SRAM_SIZE := 0x1_0000
  const DATA_MAGIC: u32 := 0xa2f06502
  const EXECUTABLE_MAGIC: u32 := 0xa2f0abe0

  type u8 = x: int | 0 <= x < 256
  type u32 = x: int | 0 <= x < 0x1_0000_0000

  // ---------------------------------------------------------------------
  //  Writer
  // ---------------------------------------------------------------------

  /** `int_to_bytes`: little endian. */
  function Pack(v: u32): (r: seq<u8>)
    ensures |r| == 4
  {
    [v % 256, v / 256 % 256, v / 65536 % 256, v / 16777216]
  }

  function Unpack(a: u8, b: u8, c: u8, d: u8): u32 {
    a + 256 * b + 65536 * c + 16777216 * d
  }

  /** Packing and unpacking a word undo each other, and the lowest byte comes
      first. */
  lemma {:induction false} UnpackPack(v: u32)
    ensures var p := Pack(v); Unpack(p[0], p[1], p[2], p[3]) == v
    ensures var a: int, b: int, c: int, d: int := Pack(v)[0], Pack(v)[1], Pack(v)[2], Pack(v)[3];
      a + 0x100 * b + 0x1_0000 * c + 0x100_0000 * d == v
  {
    var w := v / 256;
    var x := w / 256;
    assert v == w * 256 + v % 256;
    assert w == x * 256 + w % 256;
    assert x == x / 256 * 256 + x % 256;
    assert v / 65536 == x && v / 16777216 == x / 256;
  }

  /** The words of a byte string, as both the packer's `unpack` and a
      processor reading memory see them. */
  function Words(s: seq<u8>): (w: seq<u32>)
    requires |s| % 4 == 0
    ensures |w| == |s| / 4
  {
    if s == [] then [] else [Unpack(s[0], s[1], s[2], s[3])] + Words(s[4..])
  }

  function Sum(w: seq<u32>): nat {
    if w == [] then 0 else Sum(w[..|w| - 1]) + w[|w| - 1]
  }

  function Zeros(n: nat): (z: seq<u8>)
    ensures |z| == n
  {
    if n == 0 then [] else Zeros(n - 1) + [0]
  }

  /** Zero bytes up to a multiple of four. */
  function Padded(s: seq<u8>): (r: seq<u8>)
    ensures |r| % 4 == 0 && |s| <= |r| < |s| + 4 && r[..|s|] == s
  {
    if |s| % 4 == 0 then s else s + Zeros(4 - |s| % 4)
  }

  /** `checksum`: the word that makes the sum vanish. */
  function Checksum(stream: seq<u8>): u32
    requires |stream| % 4 == 0
  {
    var total: int := Sum(Words(stream));
    (0 - total) % TWO32
  }

  /** What is put into the image. An object longer than this could not be
      packed with its length as a positive 32-bit number. */
  datatype Part = Bitstream(obj: seq<u8>) | Executable(obj: seq<u8>, location: u32) | Data(obj: seq<u8>, location: u32)
  {
    predicate Small() {
      |obj| <= 0x7FFF_FFFC
    }

    function Magic(): u32 {
      if Executable? then EXECUTABLE_MAGIC else DATA_MAGIC
    }
  }

  function Header(p: Part): (r: seq<u8>)
    requires !p.Bitstream? && p.Small()
    ensures |r| == 16
  {
    Pack(p.Magic()) + Pack(p.location) + Pack(|Padded(p.obj)|) + Pack(Checksum(Padded(p.obj)))
  }

  /** The image after one call of `combine`. */
  function Combined(dfu: seq<u8>, p: Part): seq<u8>
    requires p.Small()
  {
    if p.Bitstream? then Padded(dfu + p.obj) else dfu + Header(p) + Padded(p.obj)
  }

  class Dfu {
    var out: seq<u8>

    constructor ()
      ensures out == []
    {
      out := [];
    }

    method Write(s: seq<u8>)
      modifies this
      ensures out == old(out) + s
    {
      out := out + s;
    }

    static method Align(s: seq<u8>) returns (obj: seq<u8>)
      ensures obj == Padded(s)
    {
      obj := s;
      var misaligned := |obj| % 4;
      if misaligned != 0 {
        obj := obj + Zeros(4 - misaligned);
      }
    }

    /** `combine`. */
    method Combine(p: Part)
      requires p.Small()
      modifies this
      ensures out == Combined(old(out), p)
    {
      hide Pack;
      hide Checksum;
      if p.Bitstream? {
        Write(p.obj);
        var misaligned := |out| % 4;
        if misaligned != 0 {
          Write(Zeros(4 - misaligned));
        }
      } else {
        var magic := DATA_MAGIC;
        if p.Executable? {
          magic := EXECUTABLE_MAGIC;
        }
        var obj := Align(p.obj);
        Write(Pack(magic));
        Write(Pack(p.location));
        Write(Pack(|obj|));
        Write(Pack(Checksum(obj)));
        Write(obj);
        assert out == old(out) + Header(p) + Padded(p.obj);
      }
    }
  }

  // ---------------------------------------------------------------------
  //  Reader
  // ---------------------------------------------------------------------

  /** Memory by word address, and the address to jump to (0 for none). */
  datatype Loader = Loader(runtime: u32, mem: map<int, u32>)

  function Signed(v: u32): int {
    if v < 0x8000_0000 then v else v - TWO32
  }

  /** Words copied for a length field: none if it is negative. */
  function Count(len: u32): nat {
    if Signed(len) > 0 then (len + 3) / 4 else 0
  }

  /** The loop copies as many words as hold len bytes, and none for a length of
      2 GB or more, which is a negative number to it. */
  lemma CountIs(len: u32, n: nat)
    ensures Count(len) == n <==>
      if len < 0x8000_0000 then 4 * n - 4 < len <= 4 * n else n == 0
  {
  }

  predicate IsMagic(v: u32) {
    v == DATA_MAGIC || v == EXECUTABLE_MAGIC
  }

  /** The loader's test that an executable lies in main memory; the end must
      be strictly below the end of the memory. */
  predicate InSram(dst: u32, len: u32) {
    SRAM_BASE <= dst && (dst + Signed(len)) % TWO32 < SRAM_BASE + SRAM_SIZE
  }

  function Address(dst: u32, i: nat): u32 {
    (dst + 4 * i) % TWO32
  }

  function Stored(mem: map<int, u32>, dst: u32, w: seq<u32>): map<int, u32> {
    if w == [] then mem
    else Stored(mem, dst, w[..|w| - 1])[Address(dst, |w| - 1) := w[|w| - 1]]
  }

  /** One object with its four header words. */
  function LoadOne(s: Loader, magic: u32, dst: u32, len: u32, check: u32, payload: seq<u32>): Loader {
    var runtime := if magic == EXECUTABLE_MAGIC && InSram(dst, len) then dst else s.runtime;
    Loader(if (check + Sum(payload)) % TWO32 != 0 then 0 else runtime, Stored(s.mem, dst, payload))
  }

  /** `load_runtime` over the words at its source pointer. None: it runs off
      the end of the words given. */
  function Load(w: seq<u32>, s: Loader): Option<Loader>
    decreases |w|
  {
    if |w| == 0 then None
    else if !IsMagic(w[0]) then Some(s)
    else if |w| < 4 || |w| < 4 + Count(w[2]) then None
    else Load(w[4 + Count(w[2])..], LoadOne(s, w[0], w[1], w[2], w[3], w[4..4 + Count(w[2])]))
  }

  /** `load_runtime`. */
  method LoadRuntime(w: seq<u32>, mem0: map<int, u32>) returns (runtime: u32, mem: map<int, u32>)
    requires Load(w, Loader(0, mem0)).Some?
    ensures Some(Loader(runtime, mem)) == Load(w, Loader(0, mem0))
  {
    hide Sum;
    hide Stored;
    hide InSram;
    runtime, mem := 0, mem0;
    var src := 0;
    while true
      invariant 0 <= src <= |w|
      invariant Load(w[src..], Loader(runtime, mem)) == Load(w, Loader(0, mem0))
      decreases |w| - src
    {
      var magic := w[src];
      if magic == DATA_MAGIC || magic == EXECUTABLE_MAGIC {
        ghost var s, rest := Loader(runtime, mem), w[src..];
        var dst, len, check := w[src + 1], w[src + 2], w[src + 3];
        src := src + 4;
        if magic == EXECUTABLE_MAGIC && InSram(dst, len) {
          runtime := dst;
        }
        ghost var payload := rest[4..4 + Count(len)];
        assert payload == w[src..src + Count(len)];
        var sum: u32;
        sum, mem := Copy(mem, w, src, dst, len, check);
        src := src + Count(len);
        if sum != 0 {
          runtime := 0;
        }
        assert rest[4 + Count(len)..] == w[src..];
        assert Loader(runtime, mem) == LoadOne(s, magic, dst, len, check, payload);
      } else {
        break;
      }
    }
  }

  lemma MoreToCopy(len: u32, i: nat)
    requires Signed(len) - 4 * i > 0
    ensures i + 1 <= Count(len)
  {
  }

  lemma AllCopied(len: u32, i: nat)
    requires Signed(len) - 4 * i <= 0 && i <= Count(len)
    ensures i == Count(len)
  {
  }

  lemma AddMod(a: int, b: int)
    ensures (a % TWO32 + b) % TWO32 == (a + b) % TWO32
  {
  }

  /** The copying loop. */
  method Copy(mem0: map<int, u32>, w: seq<u32>, src: nat, dst: u32, len: u32, check: u32)
    returns (sum: u32, mem: map<int, u32>)
    requires src + Count(len) <= |w|
    ensures var payload := w[src..src + Count(len)];
      sum == (check + Sum(payload)) % TWO32 && mem == Stored(mem0, dst, payload)
  {
    hide Address, Count, Signed;
    sum, mem := check, mem0;
    var left, i := Signed(len), 0;
    while left > 0
      invariant 0 <= i <= Count(len) && left == Signed(len) - 4 * i
      invariant sum == (check + Sum(w[src..src + i])) % TWO32
      invariant mem == Stored(mem0, dst, w[src..src + i])
      decreases left
    {
      MoreToCopy(len, i);
      assert w[src..src + i + 1][..i] == w[src..src + i];
      var x := w[src + i];
      mem := mem[Address(dst, i) := x];
      AddMod(check + Sum(w[src..src + i]), x);
      sum := (sum + x) % TWO32;
      i := i + 1;
      left := left - 4;
    }
    AllCopied(len, i);
  }
}
