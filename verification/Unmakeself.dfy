/** Finding where the archive starts inside a self-extracting shell script. */
module Unmakeself {
  import opened Common

  const NEWLINE: Byte := 10
  const TAB: Byte := 9
  const GZIP: seq<Byte> := [10, 0x1f, 0x8b]
  const BZIP2: seq<Byte> := [10, 0x42, 0x5a, 0x68]

  // ---------------------------------------------------------------- substring search

  predicate MatchAt(l: seq<Byte>, s: seq<Byte>, i: int) {
    0 <= i && i + |s| <= |l| && l[i..i + |s|] == s
  }

  ghost predicate Absent(l: seq<Byte>, s: seq<Byte>) {
    forall i :: !MatchAt(l, s, i)
  }

  ghost predicate Earliest(l: seq<Byte>, s: seq<Byte>, i: int) {
    MatchAt(l, s, i) && forall j | j < i :: !MatchAt(l, s, j)
  }

  method Memchr(l: seq<Byte>, c: Byte) returns (r: Option<nat>)
    ensures r.None? ==> c !in l
    ensures r.Some? ==> r.value < |l| && l[r.value] == c && c !in l[..r.value]
  {
    var i := 0;
    while i < |l|
      invariant 0 <= i <= |l| && c !in l[..i]
    {
      if l[i] == c { return Some(i); }
      i := i + 1;
    }
    return None;
  }

  /** memmem: an empty needle is never found; any other is found where it first occurs. */
  method Memmem(l: seq<Byte>, s: seq<Byte>) returns (r: Option<nat>)
    ensures r.None? <==> s == [] || Absent(l, s)
    ensures r.Some? ==> Earliest(l, s, r.value)
  {
    if |l| == 0 || |s| == 0 { return None; }
    if |l| < |s| { return None; }
    if |s| == 1 {
      r := Memchr(l, s[0]);
      SingleByte(l, s, r);
      return;
    }
    var last := |l| - |s|;
    var cur := 0;
    while cur <= last
      invariant 0 <= cur <= last + 1
      invariant forall j | j < cur :: !MatchAt(l, s, j)
    {
      if l[cur] == s[0] && l[cur..cur + |s|] == s {
        assert MatchAt(l, s, cur);
        return Some(cur);
      }
      cur := cur + 1;
    }
    return None;
  }

  lemma SingleByte(l: seq<Byte>, s: seq<Byte>, r: Option<nat>)
    requires |s| == 1
    requires r.None? ==> s[0] !in l
    requires r.Some? ==> r.value < |l| && l[r.value] == s[0] && s[0] !in l[..r.value]
    ensures r.None? <==> Absent(l, s)
    ensures r.Some? ==> Earliest(l, s, r.value)
  {
    forall i | 0 <= i < |l| ensures MatchAt(l, s, i) <==> l[i] == s[0] {
      assert l[i..i + 1] == [l[i]];
      assert s == [s[0]];
    }
    if r.Some? {
      assert MatchAt(l, s, r.value);
      forall j | 0 <= j < r.value ensures l[j] != s[0] {
        assert l[j] == l[..r.value][j];
      }
    } else {
      forall i | 0 <= i < |l| ensures l[i] != s[0] {
        assert l[i] in l;
      }
    }
  }

  // ---------------------------------------------------------------- a file as a series of reads

  /** The bytes that a series of read calls returned, in order. */
  function Flat(chunks: seq<seq<Byte>>): seq<Byte> {
    if chunks == [] then [] else Flat(chunks[..|chunks| - 1]) + chunks[|chunks| - 1]
  }

  /** The file position at which chunk k starts. */
  function Start(chunks: seq<seq<Byte>>, k: nat): nat
    requires k <= |chunks|
  {
    |Flat(chunks[..k])|
  }

  lemma {:induction false} ChunkPlace(chunks: seq<seq<Byte>>, k: nat)
    requires k < |chunks|
    ensures Start(chunks, k + 1) == Start(chunks, k) + |chunks[k]| <= |Flat(chunks)|
    ensures Flat(chunks)[Start(chunks, k)..Start(chunks, k + 1)] == chunks[k]
    ensures Start(chunks, |chunks|) == |Flat(chunks)|
    decreases |chunks|
  {
    var n := |chunks| - 1;
    assert chunks[..|chunks|] == chunks;
    assert chunks[..k + 1][..k] == chunks[..k];
    if k < n {
      var init := chunks[..n];
      ChunkPlace(init, k);
      assert init[..k] == chunks[..k] && init[..k + 1] == chunks[..k + 1];
    }
  }

  lemma {:induction false} StartsIncrease(chunks: seq<seq<Byte>>, j: nat, k: nat)
    requires j <= k <= |chunks|
    ensures Start(chunks, j) <= Start(chunks, k)
    decreases k
  {
    if j < k {
      StartsIncrease(chunks, j, k - 1);
      ChunkPlace(chunks, k - 1);
    }
  }

  /** A match in a chunk is a match in the file, and a match in the file that lies in one chunk is a match there. */
  lemma MatchInChunk(chunks: seq<seq<Byte>>, s: seq<Byte>, k: nat, i: nat)
    requires k < |chunks| && i + |s| <= |chunks[k]|
    ensures MatchAt(chunks[k], s, i) <==> MatchAt(Flat(chunks), s, Start(chunks, k) + i)
  {
    ChunkPlace(chunks, k);
    var at := Start(chunks, k);
    var inner, outer := chunks[k][i..i + |s|], Flat(chunks)[at + i..at + i + |s|];
    assert |inner| == |outer|;
    forall m | 0 <= m < |s| ensures inner[m] == outer[m] {
      assert inner[m] == Flat(chunks)[at..at + |chunks[k]|][i + m] == Flat(chunks)[at + (i + m)];
    }
  }

  // ---------------------------------------------------------------- first phase: a magic number

  ghost predicate NoMagic(chunk: seq<Byte>) {
    Absent(chunk, GZIP) && Absent(chunk, BZIP2)
  }

  /** The search stops in chunk k at i: no earlier chunk holds a magic number, and gzip goes before bzip2. */
  ghost predicate Found(chunks: seq<seq<Byte>>, k: nat, i: nat) {
    && k < |chunks| && (forall j | 0 <= j < k :: NoMagic(chunks[j]))
    && (Earliest(chunks[k], GZIP, i) || (Absent(chunks[k], GZIP) && Earliest(chunks[k], BZIP2, i)))
  }

  /** What the first phase reports: one past the start of what it finds, or nothing if no read holds a magic number. */
  ghost predicate MagicResult(chunks: seq<seq<Byte>>, r: Option<nat>) {
    && (r.None? <==> forall k | 0 <= k < |chunks| :: NoMagic(chunks[k]))
    && (r.Some? ==> exists k, i :: Found(chunks, k, i) && r.value == Start(chunks, k) + i + 1)
  }

  method FindMagic(chunks: seq<seq<Byte>>) returns (r: Option<nat>)
    ensures MagicResult(chunks, r)
  {
    var pos, k := 0, 0;
    while k < |chunks|
      invariant 0 <= k <= |chunks| && pos == Start(chunks, k)
      invariant forall j | 0 <= j < k :: NoMagic(chunks[j])
    {
      var start := Memmem(chunks[k], GZIP);
      if start.Some? {
        assert Found(chunks, k, start.value) && !NoMagic(chunks[k]);
        return Some(pos + start.value + 1);
      }
      start := Memmem(chunks[k], BZIP2);
      if start.Some? {
        assert Found(chunks, k, start.value) && !NoMagic(chunks[k]);
        return Some(pos + start.value + 1);
      }
      ChunkPlace(chunks, k);
      pos := pos + |chunks[k]|;
      k := k + 1;
    }
    return None;
  }

  predicate MagicAt(f: seq<Byte>, p: int) {
    MatchAt(f, GZIP, p) || MatchAt(f, BZIP2, p)
  }

  /** A newline and the two or three bytes with which an archive begins. */
  lemma MagicIs(f: seq<Byte>, p: nat)
    ensures MatchAt(f, GZIP, p) <==> p + 3 <= |f| && f[p] == 10 && f[p + 1] == 0x1f && f[p + 2] == 0x8b
    ensures MatchAt(f, BZIP2, p)
       <==> p + 4 <= |f| && f[p] == 10 && f[p + 1] == 0x42 && f[p + 2] == 0x5a && f[p + 3] == 0x68
  {
    if p + 3 <= |f| { assert f[p..p + 3] == [f[p], f[p + 1], f[p + 2]]; }
    if p + 4 <= |f| { assert f[p..p + 4] == [f[p], f[p + 1], f[p + 2], f[p + 3]]; }
  }

  function MagicLength(f: seq<Byte>, p: int): nat {
    if MatchAt(f, GZIP, p) then |GZIP| else |BZIP2|
  }

  ghost predicate FirstMagic(f: seq<Byte>, p: nat) {
    MagicAt(f, p) && forall q | q < p :: !MagicAt(f, q)
  }

  /** The magic number at p was returned whole by read number k, and that read holds no gzip one if this is bzip2's. */
  ghost predicate SeenWhole(chunks: seq<seq<Byte>>, p: nat, k: nat) {
    && k < |chunks| && Start(chunks, k) <= p
    && p + MagicLength(Flat(chunks), p) <= Start(chunks, k) + |chunks[k]|
    && (MatchAt(Flat(chunks), GZIP, p) || Absent(chunks[k], GZIP))
  }

  lemma OneMagicOnly(f: seq<Byte>, p: int)
    ensures !(MatchAt(f, GZIP, p) && MatchAt(f, BZIP2, p))
  {
    assert MatchAt(f, GZIP, p) ==> f[p + 1] == f[p..p + 3][1] == 0x1f;
    assert MatchAt(f, BZIP2, p) ==> f[p + 1] == f[p..p + 4][1] == 0x42;
  }

  /** The first phase reports the first magic number of the file exactly when one read returned it whole and
      that read does not put a gzip one before it in the order of trial; otherwise it reports a later one or nothing. */
  lemma FoundIsFirstIff(chunks: seq<seq<Byte>>, r: Option<nat>, p: nat)
    requires MagicResult(chunks, r) && FirstMagic(Flat(chunks), p)
    ensures r == Some(p + 1) <==> exists j :: SeenWhole(chunks, p, j)
    ensures r.Some? ==> r.value >= p + 1
  {
    hide Flat, Start;
    if r.Some? {
      var k, i :| Found(chunks, k, i) && r.value == Start(chunks, k) + i + 1;
      FoundAt(chunks, k, i, p);
    } else if exists j :: SeenWhole(chunks, p, j) {
      var j: nat :| SeenWhole(chunks, p, j);
      SeenIsMagic(chunks, p, j);
    }
  }

  lemma SeenIsMagic(chunks: seq<seq<Byte>>, p: nat, j: nat)
    requires MagicAt(Flat(chunks), p) && SeenWhole(chunks, p, j)
    ensures var n := if MatchAt(Flat(chunks), GZIP, p) then GZIP else BZIP2;
            MatchAt(chunks[j], n, p - Start(chunks, j)) && !NoMagic(chunks[j])
  {
    hide Flat, Start;
    var n := if MatchAt(Flat(chunks), GZIP, p) then GZIP else BZIP2;
    MatchInChunk(chunks, n, j, p - Start(chunks, j));
    assert MatchAt(chunks[j], n, p - Start(chunks, j));
  }

  lemma FoundAt(chunks: seq<seq<Byte>>, k: nat, i: nat, p: nat)
    requires Found(chunks, k, i) && FirstMagic(Flat(chunks), p)
    ensures Start(chunks, k) + i >= p
    ensures Start(chunks, k) + i == p <==> exists j :: SeenWhole(chunks, p, j)
  {
    hide Flat, Start;
    var f := Flat(chunks);
    var at := Start(chunks, k);
    var m := if MatchAt(chunks[k], GZIP, i) then GZIP else BZIP2;
    MatchInChunk(chunks, m, k, i);
    assert MagicAt(f, at + i);
    if at + i == p {
      OneMagicOnly(f, p);
      assert SeenWhole(chunks, p, k);
    }
    if exists j :: SeenWhole(chunks, p, j) {
      var j: nat :| SeenWhole(chunks, p, j);
      var n := if MatchAt(f, GZIP, p) then GZIP else BZIP2;
      SeenIsMagic(chunks, p, j);
      FirstChunkHoldsFirst(chunks, k, i, p, j);
      EarliestInChunk(chunks, k, i, p, n);
    }
  }

  /** A chunk that holds the first magic number of the file is the one at which the search stops. */
  lemma FirstChunkHoldsFirst(chunks: seq<seq<Byte>>, k: nat, i: nat, p: nat, j: nat)
    requires Found(chunks, k, i) && FirstMagic(Flat(chunks), p) && SeenWhole(chunks, p, j) && !NoMagic(chunks[j])
    ensures j == k
  {
    var m := if MatchAt(chunks[k], GZIP, i) then GZIP else BZIP2;
    MatchInChunk(chunks, m, k, i);
    assert MagicAt(Flat(chunks), Start(chunks, k) + i);
    if k < j {
      StartsIncrease(chunks, k + 1, j);
      ChunkPlace(chunks, k);
    }
  }

  lemma EarliestInChunk(chunks: seq<seq<Byte>>, k: nat, i: nat, p: nat, n: seq<Byte>)
    requires Found(chunks, k, i) && FirstMagic(Flat(chunks), p) && SeenWhole(chunks, p, k)
    requires n == if MatchAt(Flat(chunks), GZIP, p) then GZIP else BZIP2
    requires MatchAt(chunks[k], n, p - Start(chunks, k))
    ensures Start(chunks, k) + i == p
  {
    hide Flat, Start;
    assert Earliest(chunks[k], n, i);
    MatchInChunk(chunks, n, k, i);
    assert MagicAt(Flat(chunks), Start(chunks, k) + i);
  }

  /** A read boundary inside the first magic number hides it, and a later one is taken instead. */
  lemma SplitMagicIsMissed()
    ensures var chunks: seq<seq<Byte>> := [[10, 0x1f], [0x8b, 10, 0x1f, 0x8b]];
            && FirstMagic(Flat(chunks), 0) && Found(chunks, 1, 1) && Start(chunks, 1) + 1 == 3
  {
    var chunks: seq<seq<Byte>> := [[10, 0x1f], [0x8b, 10, 0x1f, 0x8b]];
    assert chunks[..1] == [[10, 0x1f]] && [[10, 0x1f]][..0] == [];
    assert Flat(chunks[..1]) == [10, 0x1f];
    assert Flat(chunks) == [10, 0x1f, 0x8b, 10, 0x1f, 0x8b];
    assert Flat(chunks)[0..3] == GZIP;
    assert chunks[1][1..4] == GZIP;
    assert chunks[1][0..3] != GZIP by { assert chunks[1][0..3][0] == 0x8b; }
    assert NoMagic(chunks[0]);
  }

  // ---------------------------------------------------------------- second phase: the first binary byte

  predicate Printable(b: Byte) {
    b == NEWLINE || b == TAB || 32 <= b <= 126
  }

  /** The last newline of the text, if any. */
  function LastNewline(s: seq<Byte>): Option<nat> {
    if s == [] then None
    else if s[|s| - 1] == NEWLINE then Some(|s| - 1)
    else LastNewline(s[..|s| - 1])
  }

  lemma {:induction false} LastNewlineIs(s: seq<Byte>)
    ensures var r := LastNewline(s);
            if r.None? then NEWLINE !in s
            else r.value < |s| && s[r.value] == NEWLINE && forall i | r.value < i < |s| :: s[i] != NEWLINE
    decreases |s|
  {
    if s != [] && s[|s| - 1] != NEWLINE {
      var init := s[..|s| - 1];
      LastNewlineIs(init);
      assert s == init + [s[|s| - 1]];
    }
  }

  /** Every other byte ends the text. */
  lemma OtherBytesEnd(f: seq<Byte>, j: nat)
    requires j < |f| && (f[j] < 9 || 10 < f[j] < 32 || f[j] > 126) && 10 in f[..j]
    requires forall i | 0 <= i < j :: f[i] == 10 || f[i] == 9 || 32 <= f[i] <= 126
    ensures FirstEnd(f, j)
  {
  }

  /** A byte that is not text and comes after a newline. */
  predicate Ends(f: seq<Byte>, j: nat) {
    j < |f| && !Printable(f[j]) && NEWLINE in f[..j]
  }

  /** What the scan promises: one past the last newline before the first such byte, if there is one. */
  ghost predicate ScanResult(f: seq<Byte>, r: Option<nat>) {
    if r.None? then forall j: nat :: !Ends(f, j)
    else exists j: nat :: FirstEnd(f, j) && LastNewline(f[..j]) == Some(r.value - 1)
  }

  ghost predicate FirstEnd(f: seq<Byte>, j: nat) {
    Ends(f, j) && forall i: nat | i < j :: !Ends(f, i)
  }

  /** What one more byte does to the last newline and to the search for the end. */
  lemma ScanStep(f: seq<Byte>, pos: nat)
    requires pos < |f|
    ensures LastNewline(f[..pos + 1]) == if f[pos] == NEWLINE then Some(pos) else LastNewline(f[..pos])
    ensures Ends(f, pos) <==> !Printable(f[pos]) && LastNewline(f[..pos]).Some?
  {
    LastNewlineIs(f[..pos]);
    assert f[..pos + 1][..pos] == f[..pos];
  }

  /** The loop over the reads. Its result depends on the file alone, not on how reads cut it. */
  method Scan(chunks: seq<seq<Byte>>) returns (r: Option<nat>)
    ensures ScanResult(Flat(chunks), r)
  {
    hide Flat, Start, LastNewline, Ends;
    ghost var f := Flat(chunks);
    var pos, lastNewline := 0, None;
    var k := 0;
    NoReads(chunks);
    while k < |chunks|
      invariant 0 <= k <= |chunks| && pos == Start(chunks, k) <= |f|
      invariant lastNewline == LastNewline(f[..pos])
      invariant forall j: nat | j < pos :: !Ends(f, j)
    {
      ChunkPlace(chunks, k);
      ghost var start := pos;
      var i := 0;
      while i < |chunks[k]|
        invariant 0 <= i <= |chunks[k]| && pos == start + i <= |f|
        invariant lastNewline == LastNewline(f[..pos])
        invariant forall j: nat | j < pos :: !Ends(f, j)
      {
        assert f[start..start + |chunks[k]|][i] == f[pos];
        ScanStep(f, pos);
        var b := chunks[k][i];
        if b == NEWLINE {
          lastNewline := Some(pos);
        } else if b != TAB && (b < 32 || b > 126) {
          if lastNewline.Some? {
            assert FirstEnd(f, pos);
            return Some(lastNewline.value + 1);
          }
        }
        i, pos := i + 1, pos + 1;
      }
      k := k + 1;
    }
    WholeFile(chunks);
    forall j: nat ensures !Ends(f, j) {
      EndsInside(f, j);
    }
    return None;
  }

  lemma NoReads(chunks: seq<seq<Byte>>)
    ensures Start(chunks, 0) == 0 && LastNewline(Flat(chunks)[..0]) == None
  {
  }

  lemma EndsInside(f: seq<Byte>, j: nat)
    ensures Ends(f, j) ==> j < |f|
  {
  }

  lemma WholeFile(chunks: seq<seq<Byte>>)
    ensures Start(chunks, |chunks|) == |Flat(chunks)|
  {
    assert chunks[..|chunks|] == chunks;
  }

  /** Two scans of one file agree, however each was cut into reads. */
  lemma ScanResultIsUnique(f: seq<Byte>, a: Option<nat>, b: Option<nat>)
    requires ScanResult(f, a) && ScanResult(f, b)
    ensures a == b
  {
    hide LastNewline;
    if a.Some? && b.Some? {
      var i: nat :| FirstEnd(f, i) && LastNewline(f[..i]) == Some(a.value - 1);
      var j: nat :| FirstEnd(f, j) && LastNewline(f[..j]) == Some(b.value - 1);
      assert i == j;
    }
  }

  /** A gzip archive right after a text-only script starts where the scan says, even if every read missed its
      magic number. */
  lemma TextThenGzip(f: seq<Byte>, p: nat)
    requires p + 3 <= |f| && f[p] == 10 && f[p + 1] == 0x1f && f[p + 2] == 0x8b
    requires forall i | 0 <= i < p :: f[i] == 10 || f[i] == 9 || 32 <= f[i] <= 126
    ensures MatchAt(f, GZIP, p) && ScanResult(f, Some(p + 1))
  {
    assert f[p..p + 3] == GZIP;
    assert f[p] == f[p..p + 3][0] == NEWLINE;
    assert f[p + 1] == f[p..p + 3][1] == 0x1f;
    assert f[..p + 1][p] == NEWLINE;
    assert FirstEnd(f, p + 1);
    assert LastNewline(f[..p + 1]) == Some(p);
  }

  // ---------------------------------------------------------------- both phases

  /** unmakeself_get_offset: the file is read twice, each time in pieces of any size. */
  method GetOffset(first: seq<seq<Byte>>, second: seq<seq<Byte>>) returns (r: Option<nat>)
    requires Flat(first) == Flat(second)
    ensures (exists k | 0 <= k < |first| :: !NoMagic(first[k])) ==>
              exists k, i :: Found(first, k, i) && r == Some(Start(first, k) + i + 1)
    ensures (forall k | 0 <= k < |first| :: NoMagic(first[k])) ==> ScanResult(Flat(first), r)
  {
    r := FindMagic(first);
    if r.Some? { return; }
    r := Scan(second);
  }
}
