/**
 8.3 names: how sw/src/cli.c prints them, and how sw/src/fat.c turns a typed
 name into a pattern.
*/
module FatNames {
  import opened Bytes
  import opened Fat12

  const NUL: Octet := 0
  const SPACE: Octet := 32
  const STAR: Octet := 42
  const DOT: Octet := 46
  const SLASH: Octet := 47
  const BACKSLASH: Octet := 92
  const TILDE: Octet := 126

  // ---------------------------------------------------------------------
  //  Printing
  // ---------------------------------------------------------------------

  function UpToSpace(s: seq<Octet>): (r: seq<Octet>)
    ensures |r| <= |s|
  {
    if s == [] || s[0] == SPACE then [] else [s[0]] + UpToSpace(s[1..])
  }

  function Printed(name: seq<Octet>): seq<Octet>
    requires |name| == 11
  {
    UpToSpace(name[..8]) + [DOT] + name[8..]
  }

  lemma {:induction false} UpToSpaceAt(s: seq<Octet>, k: nat)
    requires k <= |s| && (forall j :: 0 <= j < k ==> s[j] != SPACE) && (k < |s| ==> s[k] == SPACE)
    ensures UpToSpace(s) == s[..k]
  {
    if k > 0 {
      UpToSpaceAt(s[1..], k - 1);
      assert s[..k] == [s[0]] + s[1..][..k - 1];
    }
  }

  /** The name printer of the catalog command. */
  method PrintName(name: seq<Octet>) returns (out: seq<Octet>)
    requires |name| == 11
    ensures out == Printed(name)
  {
    out := [];
    var i := 0;
    while i < 8
      invariant 0 <= i <= 8 && out == name[..i]
      invariant forall j :: 0 <= j < i ==> name[j] != SPACE
    {
      if name[i] == SPACE {
        break;
      }
      out := out + [name[i]];
      i := i + 1;
    }
    UpToSpaceAt(name[..8], i);
    assert name[..8][..i] == name[..i];
    out := out + [DOT];
    out := out + [name[8]];
    out := out + [name[9]];
    out := out + [name[10]];
    assert name[8..] == [name[8]] + [name[9]] + [name[10]];
  }

  // ---------------------------------------------------------------------
  //  Munging
  // ---------------------------------------------------------------------

  /** `filename` up to the index, and the two flags. */
  datatype Munging = Munging(name: seq<Octet>, inExt: bool, long: bool)
  {
    predicate Valid() {
      |name| <= 11 && (|name| <= 8 || inExt) && (inExt ==> |name| >= 8)
    }
  }

  const NOTHING := Munging([], false, false)

  predicate Separates(c: Octet) { c == SLASH || c == BACKSLASH }

  function Upper(c: Octet): Octet {
    if 97 <= c <= 122 then c - 32 else c
  }

  /** The loops `for( ; i<n; i++) filename[i] = c`. */
  function Fill(name: seq<Octet>, c: Octet, n: nat): seq<Octet>
    decreases n - |name|
  {
    if |name| >= n then name else Fill(name + [c], c, n)
  }

  lemma {:induction false} Filled(name: seq<Octet>, c: Octet, n: nat)
    ensures |name| <= n ==> |Fill(name, c, n)| == n
    ensures |name| >= n ==> Fill(name, c, n) == name
    ensures name <= Fill(name, c, n)
    ensures forall i :: |name| <= i < |Fill(name, c, n)| ==> Fill(name, c, n)[i] == c
    decreases n - |name|
  {
    if |name| < n {
      Filled(name + [c], c, n);
    }
  }

  function Char(m: Munging, c: Octet): (r: Munging)
    requires m.Valid()
    ensures r.Valid()
  {
    Filled(m.name, SPACE, 8);
    Filled(m.name, STAR, 8);
    Filled(m.name, STAR, 11);
    if c == DOT then Munging(Fill(m.name, SPACE, 8)[..8], true, m.long)
    else if c == STAR then m.(name := Fill(m.name, STAR, if m.inExt then 11 else 8))
    else if m.inExt && |m.name| >= 11 then m
    else if !m.inExt && |m.name| >= 8 then m.(long := true)
    else m.(name := m.name + [Upper(c)])
  }

  function Finish(m: Munging): (name: seq<Octet>)
    requires m.Valid()
    ensures |name| == 11
  {
    Filled(m.name, SPACE, 11);
    var name := Fill(m.name, SPACE, 11);
    if m.long then name[6 := TILDE][7 := STAR] else name
  }

  /** The name of the first component of a path. */
  function Munged(m: Munging, path: seq<Octet>): (name: seq<Octet>)
    requires m.Valid()
    ensures |name| == 11
    decreases |path|
  {
    if path == [] || path[0] == NUL || Separates(path[0]) then Finish(m) else Munged(Char(m, path[0]), path[1..])
  }

  /** Stores c from i up to n. */
  method FillTo(filename: array<Octet>, i: nat, c: Octet, n: nat) returns (j: nat)
    requires i <= filename.Length && n <= filename.Length
    modifies filename
    ensures j == (if i < n then n else i) && filename[..j] == Fill(old(filename[..i]), c, n)
  {
    j := i;
    while j < n
      invariant i <= j && (j <= n || j == i)
      invariant Fill(filename[..j], c, n) == Fill(old(filename[..i]), c, n)
      decreases n - j
    {
      filename[j] := c;
      assert filename[..j + 1] == filename[..j] + [c];
      j := j + 1;
    }
  }

  /** The munging loop of `finddirent`: the index never passes 11 and the
      pattern ends in NUL. */
  method Munge(path: seq<Octet>) returns (filename: array<Octet>)
    ensures fresh(filename) && filename.Length == 12
    ensures filename[..11] == Munged(NOTHING, path) && filename[11] == NUL
  {
    filename := new Octet[12];
    var i, inExt, long, k := 0, false, false, 0;
    ghost var m := NOTHING;
    while k < |path| && path[k] != NUL && !Separates(path[k])
      invariant 0 <= k <= |path| && 0 <= i <= 11
      invariant m.Valid() && m == Munging(filename[..i], inExt, long)
      invariant Munged(m, path[k..]) == Munged(NOTHING, path)
    {
      var c := path[k];
      assert path[k..][0] == c && path[k..][1..] == path[k + 1..];
      ghost var was := m;
      m := Char(m, c);
      k := k + 1;
      if c == DOT {
        inExt := true;
        Filled(was.name, SPACE, 8);
        var _ := FillTo(filename, i, SPACE, 8);
        i := 8;
      } else if c == STAR {
        Filled(was.name, STAR, if inExt then 11 else 8);
        i := FillTo(filename, i, STAR, if inExt then 11 else 8);
      } else if inExt && i >= 11 {
      } else if !inExt && i >= 8 {
        long := true;
      } else {
        filename[i] := Upper(c);
        i := i + 1;
      }
    }
    Filled(m.name, SPACE, 11);
    i := FillTo(filename, i, SPACE, 11);
    if long {
      filename[6] := TILDE;
      filename[7] := STAR;
    }
    filename[11] := NUL;
  }

  // ---------------------------------------------------------------------
  //  Round trip
  // ---------------------------------------------------------------------

  /** Characters that survive munging. */
  predicate Plain(c: Octet) {
    c != NUL && !Separates(c) && c != DOT && !(97 <= c <= 122)
  }

  predicate AllPlain(s: seq<Octet>) {
    forall i :: 0 <= i < |s| ==> Plain(s[i])
  }

  /** No character follows a space in the base name. */
  predicate SolidBase(name: seq<Octet>)
    requires |name| == 11
  {
    forall i, j :: 0 <= i < j < 8 && name[i] == SPACE ==> name[j] == SPACE
  }

  /** Whatever is typed, only plain characters are looked for. */
  lemma {:induction false} PatternsArePlain(m: Munging, path: seq<Octet>)
    requires m.Valid() && AllPlain(m.name)
    ensures AllPlain(Munged(m, path))
    decreases |path|
  {
    Filled(m.name, SPACE, 11);
    if !(path == [] || path[0] == NUL || Separates(path[0])) {
      Filled(m.name, SPACE, 8);
      Filled(m.name, STAR, 8);
      Filled(m.name, STAR, 11);
      PatternsArePlain(Char(m, path[0]), path[1..]);
    }
  }

  /** Plain characters are taken as they are while there is room. */
  lemma {:induction false} PlainRun(m: Munging, s: seq<Octet>, rest: seq<Octet>)
    requires m.Valid() && AllPlain(s) && STAR !in s && |m.name| + |s| <= if m.inExt then 11 else 8
    ensures m.(name := m.name + s).Valid()
    ensures Munged(m, s + rest) == Munged(m.(name := m.name + s), rest)
    decreases |s|
  {
    if s == [] {
      assert s + rest == rest && m.name + s == m.name;
    } else {
      assert (s + rest)[1..] == s[1..] + rest;
      assert m.name + s == m.name + [s[0]] + s[1..];
      assert Char(m, s[0]) == m.(name := m.name + [s[0]]);
      PlainRun(m.(name := m.name + [s[0]]), s[1..], rest);
    }
  }

  lemma {:induction false} Padded(s: seq<Octet>)
    ensures UpToSpace(s) <= s && SPACE !in UpToSpace(s)
    ensures |UpToSpace(s)| < |s| ==> s[|UpToSpace(s)|] == SPACE
  {
    if s != [] && s[0] != SPACE {
      Padded(s[1..]);
    }
  }

  function UpToStar(s: seq<Octet>): (r: seq<Octet>)
    ensures r <= s && STAR !in r && (|r| < |s| ==> s[|r|] == STAR)
    ensures STAR !in s ==> r == s
  {
    if s == [] || s[0] == STAR then [] else [s[0]] + UpToStar(s[1..])
  }

  /** Behind a star only stars are typed. */
  predicate StarsAfter(s: seq<Octet>) {
    forall i :: |UpToStar(s)| < i < |s| ==> s[i] == STAR
  }

  /** The part of a pattern that is typed as s and has room for n: a star fills
      it up. */
  function Starred(s: seq<Octet>, n: nat): seq<Octet> {
    if STAR in s then Fill(UpToStar(s), STAR, n) else Fill(s, SPACE, n)
  }

  /** Characters behind a star are not stored; in the base one that is no star
      makes the name a long one. */
  lemma {:induction false} FullRun(m: Munging, s: seq<Octet>, rest: seq<Octet>)
    requires m.Valid() && AllPlain(s) && |m.name| == if m.inExt then 11 else 8
    ensures Munged(m, s + rest)
      == Munged(m.(long := m.long || (!m.inExt && exists i :: 0 <= i < |s| && s[i] != STAR)), rest)
    decreases |s|
  {
    if s == [] {
      assert s + rest == rest;
    } else {
      assert (s + rest)[1..] == s[1..] + rest;
      Filled(m.name, STAR, |m.name|);
      assert Char(m, s[0]) == m.(long := m.long || (!m.inExt && s[0] != STAR));
      FullRun(Char(m, s[0]), s[1..], rest);
      assert forall i :: 1 <= i < |s| ==> s[i] == s[1..][i - 1];
    }
  }

  /** Plain characters with stars among them, typed where there is room. */
  lemma {:induction false} StarRun(m: Munging, s: seq<Octet>, rest: seq<Octet>)
    requires m.Valid() && !m.long && AllPlain(s) && STAR in s
    requires |m.name| == (if m.inExt then 8 else 0) && |s| <= if m.inExt then 3 else 8
    ensures |Fill(m.name + UpToStar(s), STAR, if m.inExt then 11 else 8)| == if m.inExt then 11 else 8
    ensures Munged(m, s + rest) == Munged(
      Munging(Fill(m.name + UpToStar(s), STAR, if m.inExt then 11 else 8), m.inExt, !m.inExt && !StarsAfter(s)), rest)
  {
    hide UpToStar;
    var n := if m.inExt then 11 else 8;
    var p := UpToStar(s);
    var q := s[|p| + 1..];
    assert s + rest == p + ([STAR] + (q + rest));
    Prefixes(s, p);
    PlainRun(m, p, [STAR] + (q + rest));
    Filled(m.name + p, STAR, n);
    assert ([STAR] + (q + rest))[1..] == q + rest;
    var full := Munging(Fill(m.name + p, STAR, n), m.inExt, false);
    assert Char(m.(name := m.name + p), STAR) == full;
    assert AllPlain(q) by {
      assert forall i :: 0 <= i < |q| ==> q[i] == s[i + |p| + 1];
    }
    FullRun(full, q, rest);
    assert (exists i :: 0 <= i < |q| && q[i] != STAR) <==> !StarsAfter(s) by {
      assert forall i :: 0 <= i < |q| ==> q[i] == s[i + |p| + 1];
      assert forall i :: |p| < i < |s| ==> s[i] == q[i - |p| - 1];
    }
  }

  lemma Prefixes(s: seq<Octet>, p: seq<Octet>)
    requires AllPlain(s) && p <= s
    ensures AllPlain(p)
  {
  }

  /** The base and the extension of the pattern made from a printed name. */
  function TypedBase(base: seq<Octet>): (r: seq<Octet>)
    requires |base| <= 8
    ensures |r| == 8
  {
    Filled(UpToStar(base), STAR, 8);
    Filled(base, SPACE, 8);
    if StarsAfter(base) then Starred(base, 8) else Starred(base, 8)[6 := TILDE][7 := STAR]
  }

  /** What the catalog prints, typed again: the base up to its first space,
      padded, and the extension; a star fills up either, and with anything but
      stars behind one the base is taken for a long name. */
  lemma {:induction false} PrintedThenMunged(name: seq<Octet>)
    requires |name| == 11 && AllPlain(name)
    ensures Munged(NOTHING, Printed(name)) == TypedBase(UpToSpace(name[..8])) + Starred(name[8..], 3)
  {
    hide UpToSpace, Munged, Plain, StarsAfter, UpToStar;
    var base, ext := UpToSpace(name[..8]), name[8..];
    PartsArePlain(name);
    assert Printed(name) == base + ([DOT] + ext);
    BaseRun(base, [DOT] + ext);
    var full := Starred(base, 8);
    AfterDot(full, !StarsAfter(base), ext);
  }

  lemma {:induction false} PartsArePlain(name: seq<Octet>)
    requires |name| == 11 && AllPlain(name)
    ensures AllPlain(UpToSpace(name[..8])) && AllPlain(name[8..])
  {
    hide Plain;
    Padded(name[..8]);
    Prefixes(name[..8], UpToSpace(name[..8]));
    assert forall i :: 0 <= i < 3 ==> name[8..][i] == name[i + 8];
  }

  lemma {:induction false} BaseRun(base: seq<Octet>, rest: seq<Octet>)
    requires AllPlain(base) && |base| <= 8 && rest != [] && rest[0] == DOT
    ensures |Starred(base, 8)| == 8
    ensures Munged(NOTHING, base + rest) == Munged(Munging(Starred(base, 8), true, !StarsAfter(base)), rest[1..])
  {
    hide Munged, AllPlain, Separates, StarsAfter, UpToStar, Fill;
    if STAR in base {
      Filled(UpToStar(base), STAR, 8);
      assert [] + UpToStar(base) == UpToStar(base);
      StarRun(NOTHING, base, rest);
      var full := Fill(UpToStar(base), STAR, 8);
      Filled(full, SPACE, 8);
      DotTyped(Munging(full, false, !StarsAfter(base)), rest);
    } else {
      assert [] + base == base;
      NoStarsAfter(base);
      PlainRun(NOTHING, base, rest);
      DotTyped(Munging(base, false, false), rest);
    }
  }

  lemma NoStarsAfter(s: seq<Octet>)
    requires STAR !in s
    ensures StarsAfter(s)
  {
  }

  lemma {:induction false} DotTyped(m: Munging, rest: seq<Octet>)
    requires m.Valid() && |m.name| <= 8 && rest != [] && rest[0] == DOT
    ensures |Fill(m.name, SPACE, 8)| == 8
    ensures Munged(m, rest) == Munged(Munging(Fill(m.name, SPACE, 8), true, m.long), rest[1..])
  {
    Filled(m.name, SPACE, 8);
    assert Fill(m.name, SPACE, 8)[..8] == Fill(m.name, SPACE, 8);
  }

  lemma {:induction false} AfterDot(base: seq<Octet>, long: bool, ext: seq<Octet>)
    requires |base| == 8 && |ext| == 3 && AllPlain(ext)
    ensures |Starred(ext, 3)| == 3
    ensures Munged(Munging(base, true, long), ext)
      == (if long then base[6 := TILDE][7 := STAR] else base) + Starred(ext, 3)
  {
    hide Munged, Plain, StarsAfter, UpToStar, Fill;
    Filled(UpToStar(ext), STAR, 3);
    Filled(ext, SPACE, 3);
    LongLater(base, long, ext);
    var name := base + Starred(ext, 3);
    assert ext + [] == ext;
    var m := Munging(base, true, false);
    if STAR in ext {
      StarRun(m, ext, []);
      FillBehind(base, UpToStar(ext), STAR, 3);
    } else {
      PlainRun(m, ext, []);
    }
    assert Munged(m, ext) == name by { Finished(Munging(name, true, false)); }
  }

  lemma {:induction false} Finished(m: Munging)
    requires m.Valid() && |m.name| == 11 && !m.long
    ensures Munged(m, []) == m.name
  {
    Filled(m.name, SPACE, 11);
  }

  /** Being long makes no difference until the end. */
  lemma {:induction false} LongLater(base: seq<Octet>, long: bool, ext: seq<Octet>)
    requires |base| == 8 && AllPlain(ext)
    ensures Munged(Munging(base, true, long), ext)
      == if long then Munged(Munging(base, true, false), ext)[6 := TILDE][7 := STAR]
         else Munged(Munging(base, true, false), ext)
  {
    if long {
      LongIsLast(Munging(base, true, false), ext);
    }
  }

  lemma {:induction false} LongIsLast(m: Munging, s: seq<Octet>)
    requires m.Valid() && m.inExt && !m.long
    ensures Munged(m.(long := true), s) == Munged(m, s)[6 := TILDE][7 := STAR]
    decreases |s|
  {
    if !(s == [] || s[0] == NUL || Separates(s[0])) {
      assert Char(m.(long := true), s[0]) == Char(m, s[0]).(long := true) && Char(m, s[0]).inExt;
      LongIsLast(Char(m, s[0]), s[1..]);
    }
  }

  lemma {:induction false} FillBehind(a: seq<Octet>, s: seq<Octet>, c: Octet, n: nat)
    ensures Fill(a + s, c, |a| + n) == a + Fill(s, c, n)
    decreases n - |s|
  {
    if |s| < n {
      assert a + s + [c] == a + (s + [c]);
      FillBehind(a, s + [c], c, n);
    }
  }

  /** The same character, or the same letter in the other case. */
  predicate SameLetter(a: Octet, b: Octet) {
    a == b || (65 <= a <= 90 && b == a + 32) || (65 <= b <= 90 && a == b + 32)
  }

  predicate SameText(s: seq<Octet>, t: seq<Octet>) {
    |s| == |t| && forall i :: 0 <= i < |s| ==> SameLetter(s[i], t[i])
  }

  /** The case of letters makes no difference to what is looked for. */
  lemma {:induction false} CaseMakesNoDifference(m: Munging, s: seq<Octet>, t: seq<Octet>)
    requires m.Valid() && SameText(s, t)
    ensures Munged(m, s) == Munged(m, t)
    decreases |s|
  {
    hide Finish, Fill;
    if s != [] {
      assert SameLetter(s[0], t[0]);
      assert Char(m, s[0]) == Char(m, t[0]);
      assert SameText(s[1..], t[1..]) by {
        assert forall i :: 0 <= i < |s[1..]| ==> s[1..][i] == s[i + 1] && t[1..][i] == t[i + 1];
      }
      CaseMakesNoDifference(Char(m, s[0]), s[1..], t[1..]);
    }
  }

  /** Without a star, and with a dot in reach, no star is looked for. */
  lemma {:induction false} NoStar(m: Munging, path: seq<Octet>, d: nat)
    requires m.Valid() && !m.long && STAR !in m.name && STAR !in path
    requires m.inExt || (d < |path| && path[d] == DOT && |m.name| + d <= 8)
    ensures STAR !in Munged(m, path)
    decreases |path|
  {
    Filled(m.name, SPACE, 11);
    if !(path == [] || path[0] == NUL || Separates(path[0])) {
      Filled(m.name, SPACE, 8);
      NoStar(Char(m, path[0]), path[1..], if d > 0 then d - 1 else 0);
    }
  }

  lemma {:induction false} PrintedHasNoStar(name: seq<Octet>)
    requires |name| == 11 && STAR !in name
    ensures STAR !in Munged(NOTHING, Printed(name))
  {
    var base := UpToSpace(name[..8]);
    Padded(name[..8]);
    assert forall i :: 0 <= i < |base| ==> base[i] == name[..8][i] == name[i];
    NoStar(NOTHING, Printed(name), |base|);
  }

  /** Behind a star nothing but stars, or the pattern of a long name. */
  predicate BaseStars(b: seq<Octet>)
    requires |b| == 8
  {
    forall i, j :: 0 <= i < j < 8 && b[i] == STAR ==> b[j] == STAR || (j == 6 && b[j] == TILDE)
  }

  predicate ExtStars(e: seq<Octet>)
    requires |e| == 3
  {
    forall i, j :: 0 <= i < j < 3 && e[i] == STAR ==> e[j] == STAR
  }

  lemma {:induction false} StarredAt(s: seq<Octet>, n: nat, k: nat)
    requires |s| <= n && k < n
    ensures |Starred(s, n)| == n && |UpToStar(s)| <= |s|
    ensures Starred(s, n)[k] ==
      if k < |UpToStar(s)| then s[k] else if STAR in s then STAR else SPACE
  {
    Filled(UpToStar(s), STAR, n);
    Filled(s, SPACE, n);
  }

  lemma {:induction false} ExtFits(e: seq<Octet>)
    requires |e| == 3
    ensures |Starred(e, 3)| == 3
    ensures Starred(e, 3) == e <==> ExtStars(e)
  {
    StarredAt(e, 3, 0);
    StarredAt(e, 3, 1);
    StarredAt(e, 3, 2);
    hide Starred;
    var p := UpToStar(e);
    assert forall i :: 0 <= i < |p| ==> e[i] == p[i] != STAR;
  }

  /** A base whose first star is at p, in front of the first space at n, and
      what it is typed as. */
  lemma {:induction false} StarBase(b: seq<Octet>, n: nat, p: nat, long: bool, t: seq<Octet>)
    requires |b| == |t| == 8 && p < n <= 8 && b[p] == STAR
    requires (forall i :: 0 <= i < p ==> b[i] != STAR) && (forall i :: 0 <= i < n ==> b[i] != SPACE)
    requires n < 8 ==> b[n] == SPACE
    requires long <==> exists i :: p < i < n && b[i] != STAR
    requires forall k :: 0 <= k < 8 ==> t[k] == if long && k == 6 then TILDE else if k < p then b[k] else STAR
    ensures t == b <==> n == 8 && BaseStars(b)
  {
    if n == 8 && BaseStars(b) {
      assert forall k :: p < k < 8 ==> b[k] == STAR || (k == 6 && b[k] == TILDE);
      if long {
        var i :| p < i < n && b[i] != STAR;
        assert i == 6;
      }
      assert forall k :: 0 <= k < 8 ==> t[k] == b[k];
    }
  }

  lemma {:induction false} SolidIs(name: seq<Octet>)
    requires |name| == 11
    ensures var n := |UpToSpace(name[..8])|;
      && (SolidBase(name) <==> forall i :: n <= i < 8 ==> name[i] == SPACE)
      && n <= 8 && (forall i :: 0 <= i < n ==> UpToSpace(name[..8])[i] == name[i] != SPACE)
      && (n < 8 ==> name[n] == SPACE)
  {
    var b := name[..8];
    var base := UpToSpace(b);
    Padded(b);
    assert forall i :: 0 <= i < |base| ==> base[i] == b[i] == name[i];
  }

  lemma {:induction false} TypedAt(base: seq<Octet>, k: nat)
    requires |base| <= 8 && k < 8
    ensures TypedBase(base)[k] ==
      if !StarsAfter(base) && k == 6 then TILDE
      else if k < |UpToStar(base)| then base[k]
      else if STAR in base then STAR else SPACE
  {
    StarredAt(base, 8, k);
    hide Starred, UpToStar;
  }

  lemma {:induction false} BaseFits(name: seq<Octet>)
    requires |name| == 11
    ensures TypedBase(UpToSpace(name[..8])) == name[..8] <==> SolidBase(name) && BaseStars(name[..8])
  {
    hide Starred, UpToSpace, UpToStar, TypedBase, SolidBase;
    var b := name[..8];
    var base := UpToSpace(b);
    SolidIs(name);
    forall k | 0 <= k < 8
      ensures TypedBase(base)[k] ==
        if !StarsAfter(base) && k == 6 then TILDE
        else if k < |UpToStar(base)| then base[k]
        else if STAR in base then STAR else SPACE
    {
      TypedAt(base, k);
    }
    var p := UpToStar(base);
    assert forall i :: 0 <= i < |p| ==> p[i] == base[i] == b[i] != STAR;
    if STAR in base {
      StarBase(b, |base|, |p|, !StarsAfter(base), TypedBase(base));
      if |base| < 8 {
        assert !BaseStars(b) by { assert b[|p|] == STAR; assert b[|base|] == SPACE; }
      }
    } else {
      NoStarsAfter(base);
      if SolidBase(name) {
        NoStarInSpaces(name, |base|);
      }
      assert forall k :: 0 <= k < 8 ==> TypedBase(base)[k] == if k < |base| then b[k] else SPACE;
    }
  }

  lemma NoStarInSpaces(name: seq<Octet>, n: nat)
    requires |name| == 11 && n <= 8 && forall i :: 0 <= i < n ==> name[i] != STAR
    requires forall i :: n <= i < 8 ==> name[i] == SPACE
    ensures BaseStars(name[..8])
  {
  }

  /** A printed name munges back to the bytes of its entry if and only if they
      are plain, the base has no space inside, and stars fill up their part. */
  lemma {:induction false} PrintedNameRoundTrip(name: seq<Octet>)
    requires |name| == 11
    ensures Munged(NOTHING, Printed(name)) == name
      <==> AllPlain(name) && SolidBase(name) && BaseStars(name[..8]) && ExtStars(name[8..])
  {
    PatternsArePlain(NOTHING, Printed(name));
    if AllPlain(name) {
      PrintedThenMunged(name);
      BaseFits(name);
      ExtFits(name[8..]);
      hide TypedBase, Starred, UpToSpace, SolidBase, BaseStars, ExtStars, Munged, AllPlain;
      var base, ext := TypedBase(UpToSpace(name[..8])), Starred(name[8..], 3);
      assert name == name[..8] + name[8..];
      assert (base + ext)[..8] == base && (base + ext)[8..] == ext;
    }
  }

  lemma NoStarsFit(name: seq<Octet>)
    requires |name| == 11 && STAR !in name
    ensures BaseStars(name[..8]) && ExtStars(name[8..])
  {
    assert forall i :: 0 <= i < 8 ==> name[..8][i] == name[i] != STAR;
    assert forall i :: 0 <= i < 3 ==> name[8..][i] == name[i + 8] != STAR;
  }

  // ---------------------------------------------------------------------
  //  Typed names, in characters
  // ---------------------------------------------------------------------

  /** No end, star, dot or separator. */
  predicate Ordinary(c: Octet) {
    c != 0 && c != 42 && c != 46 && c != 47 && c != 92
  }

  predicate AllOrdinary(s: seq<Octet>) {
    forall i :: 0 <= i < |s| ==> Ordinary(s[i])
  }

  /** In capitals. */
  function Capitals(s: seq<Octet>): (r: seq<Octet>)
    ensures |r| == |s|
  {
    seq(|s|, i requires 0 <= i < |s| => if 97 <= s[i] <= 122 then s[i] - 32 else s[i])
  }

  function Times(c: Octet, n: nat): (r: seq<Octet>)
    ensures |r| == n
  {
    seq(n, _ => c)
  }

  lemma {:induction false} CapitalsArePlain(s: seq<Octet>)
    requires AllOrdinary(s)
    ensures AllPlain(Capitals(s)) && STAR !in Capitals(s) && SameText(s, Capitals(s))
  {
    forall i | 0 <= i < |s|
      ensures Plain(Capitals(s)[i]) && Capitals(s)[i] != STAR && SameLetter(s[i], Capitals(s)[i])
    {
      assert Ordinary(s[i]);
    }
  }

  lemma {:induction false} FillIs(s: seq<Octet>, c: Octet, n: nat)
    requires |s| <= n
    ensures Fill(s, c, n) == s + Times(c, n - |s|)
  {
    Filled(s, c, n);
  }

  lemma {:induction false} SameJoin(a: seq<Octet>, b: seq<Octet>, c: seq<Octet>, d: seq<Octet>)
    requires SameText(a, b) && SameText(c, d)
    ensures SameText(a + c, b + d)
  {
  }

  lemma SameSelf(a: seq<Octet>)
    ensures SameText(a, a)
  {
  }

  /** The base of a name, up to its dot; too long a one loses what is behind
      the eighth character. */
  lemma {:induction false} BaseTyped(b: seq<Octet>, rest: seq<Octet>)
    requires AllOrdinary(b) && rest != [] && rest[0] == 46
    ensures Munged(NOTHING, b + rest) ==
      if |b| <= 8 then Munged(Munging(Capitals(b) + Times(32, 8 - |b|), true, false), rest[1..])
      else Munged(Munging(Capitals(b)[..8], true, true), rest[1..])
  {
    hide Munged, Plain, Ordinary;
    var u := Capitals(b);
    CapitalsArePlain(b);
    SameSelf(rest);
    SameJoin(b, u, rest, rest);
    CaseMakesNoDifference(NOTHING, b + rest, u + rest);
    var n := if |u| <= 8 then |u| else 8;
    var m := Munging(u[..n], false, |u| > 8);
    assert Munged(NOTHING, u + rest) == Munged(m, rest) by {
      Prefixes(u, u[..n]);
      assert STAR !in u[..n];
      assert [] + u[..n] == u[..n] && u[..n] + (u[n..] + rest) == u + rest;
      PlainRun(NOTHING, u[..n], u[n..] + rest);
      if |u| > 8 {
        Suffix(u, 8);
        FullRun(Munging(u[..8], false, false), u[8..], rest);
        assert u[8..][0] != STAR;
      } else {
        assert u[n..] + rest == rest;
      }
    }
    FillIs(u[..n], 32, 8);
    DotTyped(m, rest);
    assert u[..|u|] == u;
  }

  lemma Suffix(s: seq<Octet>, k: nat)
    requires AllPlain(s) && k <= |s|
    ensures AllPlain(s[k..])
  {
  }

  /** A name with an extension: both in capitals and padded with blanks; of a
      long base six characters, a tilde and a star. */
  lemma {:induction false} NameTyped(b: seq<Octet>, e: seq<Octet>)
    requires AllOrdinary(b) && AllOrdinary(e) && |e| <= 3
    ensures Munged(NOTHING, b + [46] + e) ==
      (if |b| <= 8 then Capitals(b) + Times(32, 8 - |b|) else Capitals(b)[..6] + [126, 42])
      + Capitals(e) + Times(32, 3 - |e|)
  {
    hide Munged, Plain, Ordinary, Fill;
    var rest := [46] + e;
    assert b + [46] + e == b + rest && rest[1..] == e;
    BaseTyped(b, rest);
    var long := |b| > 8;
    var base := if long then Capitals(b)[..8] else Capitals(b) + Times(32, 8 - |b|);
    ExtensionTyped(base, long, e);
    if long {
      assert base[6 := 126][7 := 42] == Capitals(b)[..6] + [126, 42];
    }
  }

  lemma {:induction false} ExtensionTyped(base: seq<Octet>, long: bool, e: seq<Octet>)
    requires |base| == 8 && AllOrdinary(e) && |e| <= 3
    ensures Munged(Munging(base, true, long), e)
      == (if long then base[6 := 126][7 := 42] else base) + Capitals(e) + Times(32, 3 - |e|)
  {
    hide Plain, Ordinary, Fill;
    var u := Capitals(e);
    CapitalsArePlain(e);
    CaseMakesNoDifference(Munging(base, true, false), e, u);
    CaseMakesNoDifference(Munging(base, true, long), e, u);
    assert u + [] == u;
    PlainRun(Munging(base, true, false), u, []);
    FillIs(base + u, 32, 11);
    LongLater(base, long, u);
  }

  /** Nothing behind a separator or the end belongs to the name. */
  lemma {:induction false} NameEnds(m: Munging, p: seq<Octet>, c: Octet, q: seq<Octet>)
    requires m.Valid() && (c == 0 || c == 47 || c == 92)
    requires forall i :: 0 <= i < |p| ==> p[i] != 0 && p[i] != 47 && p[i] != 92
    ensures Munged(m, p + [c] + q) == Munged(m, p) && Separates(47) && Separates(92)
    decreases |p|
  {
    hide Char, Finish;
    if p != [] {
      assert (p + [c] + q)[1..] == p[1..] + [c] + q;
      assert p[0] != 0 && p[0] != 47 && p[0] != 92;
      NameEnds(Char(m, p[0]), p[1..], c, q);
    }
  }

  /** A star stands for the rest of the base, and all of the extension. */
  lemma {:induction false} StarTyped(b: seq<Octet>)
    requires AllOrdinary(b) && |b| < 8
    ensures Munged(NOTHING, b + [42, 46, 42]) == Capitals(b) + Times(42, 11 - |b|)
  {
    hide Munged, Plain, Ordinary, Fill;
    var u, rest := Capitals(b), [42, 46, 42];
    CapitalsArePlain(b);
    SameSelf(rest);
    SameJoin(b, u, rest, rest);
    CaseMakesNoDifference(NOTHING, b + rest, u + rest);
    assert [] + u == u;
    PlainRun(NOTHING, u, rest);
    StarsTyped(u);
  }

  lemma {:induction false} StarsTyped(u: seq<Octet>)
    requires |u| < 8
    ensures Munged(Munging(u, false, false), [42, 46, 42]) == u + Times(42, 11 - |u|)
  {
    var m1 := Munging(u, false, false);
    var full := u + Times(42, 8 - |u|);
    FillIs(u, 42, 8);
    FillIs(full, 32, 8);
    FillIs(full, 42, 11);
    assert full + Times(32, 0) == full && full[..8] == full;
    assert [42, 46, 42][1..] == [46, 42] && [46, 42][1..] == [42] && [42][1..] == [];
    assert Char(m1, 42) == Munging(full, false, false);
    assert Char(Munging(full, false, false), 46) == Munging(full, true, false);
    var all := Munging(full + Times(42, 3), true, false);
    assert Char(Munging(full, true, false), 42) == all;
    Finished(all);
    assert full + Times(42, 3) == u + Times(42, 11 - |u|);
    hide Char, Fill;
    assert Munged(all, []) == Munged(Munging(full, true, false), [42]);
    assert Munged(Munging(full, true, false), [42]) == Munged(Munging(full, false, false), [46, 42]);
  }
}
