/** Moving an ELF64 program header table into the first page of its file. */
module RelocatePhdrs {
  import opened Common

  const PAGE_SIZE := 4096
  const PT_PHDR := 6
  const PT_LOAD := 1
  const NEW_PHOFF := 64
  const ENTRY_SIZE := 56
  const HEADER_SIZE := 64

  /** File positions are signed 64-bit numbers. */
  const MAX_SEEK := 0x8000_0000_0000_0000

  /** ELF header fields, as laid out by the ELF-64 object file format. */
  const PHOFF := 0x20
  const PHENTSIZE := 0x36
  const PHNUM := 0x38

  // ---------------------------------------------------------------- little-endian numbers

  function Little(s: seq<Byte>): nat {
    if s == [] then 0 else s[0] + 256 * Little(s[1..])
  }

  function Bytes(v: nat, n: nat): (s: seq<Byte>)
    ensures |s| == n
  {
    if n == 0 then [] else [v % 256] + Bytes(v / 256, n - 1)
  }

  /** How many numbers n bytes can hold. */
  function ValuesOf(n: nat): nat {
    if n == 0 then 1 else 256 * ValuesOf(n - 1)
  }

  lemma {:induction false} LittleOfBytes(v: nat, n: nat)
    requires v < ValuesOf(n)
    ensures Little(Bytes(v, n)) == v
  {
    if n > 0 {
      LittleOfBytes(v / 256, n - 1);
      assert Bytes(v, n)[1..] == Bytes(v / 256, n - 1);
    }
  }

  function Field(s: seq<Byte>, at: nat, n: nat): nat
    requires at + n <= |s|
  {
    Little(s[at..at + n])
  }

  // ---------------------------------------------------------------- program headers

  type Entry = e: seq<Byte> | |e| == ENTRY_SIZE witness seq(ENTRY_SIZE, _ => 0)

  function Type(e: Entry): nat { Field(e, 0, 4) }

  function Offset(e: Entry): nat { Field(e, 8, 8) }

  function FileSize(e: Entry): nat { Field(e, 32, 8) }

  /** The n entries of a table that starts at offset at. */
  function Entries(f: seq<Byte>, at: nat, n: nat): (r: seq<Entry>)
    requires at + ENTRY_SIZE * n <= |f|
    ensures |r| == n
  {
    seq(n, i requires 0 <= i < n => Slot(f, at, i))
  }

  function Slot(f: seq<Byte>, at: nat, i: nat): (e: Entry)
    requires at + ENTRY_SIZE * (i + 1) <= |f|
  {
    f[at + ENTRY_SIZE * i..at + ENTRY_SIZE * (i + 1)]
  }

  function Kept(entries: seq<Entry>): (r: seq<Entry>)
    ensures |r| <= |entries| && forall e | e in r :: e in entries && Type(e) != PT_PHDR
  {
    if entries == [] then []
    else (if Type(entries[0]) == PT_PHDR then [] else [entries[0]]) + Kept(entries[1..])
  }

  /** The segment that maps the start of the file, first page included. */
  predicate MapsFirstPage(e: Entry) {
    Type(e) == PT_LOAD && Offset(e) == 0 && FileSize(e) >= PAGE_SIZE
  }

  /** The lowest offset, from NEW_PHOFF up, at which anything else starts in the first page. */
  function Limit(kept: seq<Entry>, limit: nat): nat
    decreases |kept|
  {
    if kept == [] then limit
    else
      var e := kept[0];
      Limit(kept[1..], if !MapsFirstPage(e) && NEW_PHOFF <= Offset(e) < limit then Offset(e) else limit)
  }

  function Concat(entries: seq<Entry>): (r: seq<Byte>)
    ensures |r| == ENTRY_SIZE * |entries|
  {
    if entries == [] then [] else entries[0] + Concat(entries[1..])
  }

  // ---------------------------------------------------------------- the decision

  datatype Outcome =
    | NotElf | ShortHeader | BadEntrySize | AlreadyInFirstPage | BadSeek | Truncated | NoRoom | NotStale | Moved(n: nat)

  function IsElf(f: seq<Byte>): bool {
    |f| >= 6 && f[..4] == [0x7f, 0x45, 0x4c, 0x46] && f[4] == 2 && f[5] == 1
  }

  /** The header ends before a byte the script has to look at. */
  function IsShort(f: seq<Byte>): bool {
    && |f| >= 4 && f[..4] == [0x7f, 0x45, 0x4c, 0x46]
    && (|f| == 4 || (f[4] == 2 && (|f| == 5 || (f[5] == 1 && |f| < PHNUM + 2))))
  }

  /** The kernel's test that the table lies in the first page. */
  predicate InFirstPage(phoff: nat, phentsize: nat, phnum: nat) {
    phoff <= PAGE_SIZE && phentsize * phnum <= PAGE_SIZE - phoff
  }

  function Decide(f: seq<Byte>): Outcome {
    if IsShort(f) then ShortHeader
    else if !IsElf(f) then NotElf
    else
      var phoff, phentsize, phnum := Field(f, PHOFF, 8), Field(f, PHENTSIZE, 2), Field(f, PHNUM, 2);
      if phentsize != ENTRY_SIZE then BadEntrySize
      else if InFirstPage(phoff, phentsize, phnum) then AlreadyInFirstPage
      else if phoff >= MAX_SEEK then BadSeek
      else if phoff + ENTRY_SIZE * phnum > |f| && phnum > 0 then Truncated
      else
        var kept := if phnum == 0 then [] else Kept(Entries(f, phoff, phnum));
        if !(exists e | e in kept :: MapsFirstPage(e)) || NEW_PHOFF + ENTRY_SIZE * |kept| > Limit(kept, PAGE_SIZE)
        then NoRoom
        else if |f| < NEW_PHOFF + 4 || Field(f, NEW_PHOFF, 4) != PT_PHDR then NotStale
        else Moved(|kept|)
  }

  /** The file after the table has been moved. */
  function Rewritten(f: seq<Byte>): seq<Byte>
    requires Decide(f).Moved?
  {
    var kept := OldKept(f);
    LongEnough(f);
    Overlay(Overlay(Overlay(f, NEW_PHOFF, Concat(kept)), PHOFF, Bytes(NEW_PHOFF, 8)), PHNUM, Bytes(|kept|, 2))
  }

  function Overlay(f: seq<Byte>, at: nat, s: seq<Byte>): (r: seq<Byte>)
    requires at + |s| <= |f|
    ensures |r| == |f|
  {
    f[..at] + s + f[at + |s|..]
  }

  function OldKept(f: seq<Byte>): seq<Entry>
    requires Decide(f).Moved?
  {
    Kept(Entries(f, Field(f, PHOFF, 8), Field(f, PHNUM, 2)))
  }

  lemma {:induction false} LimitBounds(kept: seq<Entry>, limit: nat)
    requires limit <= PAGE_SIZE
    ensures Limit(kept, limit) <= limit
    ensures forall e | e in kept && Offset(e) >= NEW_PHOFF :: Limit(kept, limit) <= Offset(e) || limit <= Offset(e)
    decreases |kept|
  {
    if kept != [] {
      var e := kept[0];
      var next := if !MapsFirstPage(e) && NEW_PHOFF <= Offset(e) < limit then Offset(e) else limit;
      LimitBounds(kept[1..], next);
    }
  }

  /** A table that is worth moving makes the file longer than a page. */
  lemma LongEnough(f: seq<Byte>)
    requires Decide(f).Moved?
    ensures |f| > PAGE_SIZE >= NEW_PHOFF + ENTRY_SIZE * |OldKept(f)|
  {
    LimitBounds(OldKept(f), PAGE_SIZE);
  }

  // ---------------------------------------------------------------- which files are moved

  function U16(f: seq<Byte>, at: nat): nat
    requires at + 2 <= |f|
  {
    var low: nat, high: nat := f[at], f[at + 1];
    low + 0x100 * high
  }

  function U32(f: seq<Byte>, at: nat): nat
    requires at + 4 <= |f|
  {
    U16(f, at) + 0x1_0000 * U16(f, at + 2)
  }

  function U64(f: seq<Byte>, at: nat): nat
    requires at + 8 <= |f|
  {
    U32(f, at) + 0x1_0000_0000 * U32(f, at + 4)
  }

  lemma FieldIs(f: seq<Byte>, at: nat)
    ensures at + 2 <= |f| ==> Field(f, at, 2) == U16(f, at)
    ensures at + 4 <= |f| ==> Field(f, at, 4) == U32(f, at)
    ensures at + 8 <= |f| ==> Field(f, at, 8) == U64(f, at)
  {
    if at + 2 <= |f| { LittleSum(f[at..at + 2]); }
    if at + 4 <= |f| { LittleSum(f[at..at + 4]); }
    if at + 8 <= |f| { LittleSum(f[at..at + 8]); }
  }

  lemma LittleSum(s: seq<Byte>)
    ensures |s| == 2 ==> Little(s) == U16(s, 0)
    ensures |s| == 4 ==> Little(s) == U32(s, 0)
    ensures |s| == 8 ==> Little(s) == U64(s, 0)
  {
    if |s| >= 2 {
      assert Little(s) == s[0] + 256 * Little(s[1..]) && Little(s[1..]) == s[1] + 256 * Little(s[2..]);
    }
    if |s| >= 4 { LittleSum4(s); }
    if |s| == 8 { LittleSum4(s[4..]); }
  }

  lemma LittleSum4(s: seq<Byte>)
    requires |s| >= 4
    ensures Little(s) == U32(s, 0) + 0x1_0000_0000 * Little(s[4..])
  {
    assert Little(s) == s[0] + 256 * Little(s[1..]) && Little(s[1..]) == s[1] + 256 * Little(s[2..]);
    assert Little(s[2..]) == s[2] + 256 * Little(s[3..]) && Little(s[3..]) == s[3] + 256 * Little(s[4..]);
  }

  /** The file starts as a 64-bit little-endian ELF file, up to the number of program headers. */
  predicate Elf64(f: seq<Byte>) {
    && |f| >= 58 && f[0] == 0x7f && f[1] == 0x45 && f[2] == 0x4c && f[3] == 0x46 && f[4] == 2 && f[5] == 1
  }

  /** It is cut off where it might have been one. */
  predicate CutHeader(f: seq<Byte>) {
    && 4 <= |f| < 58 && f[0] == 0x7f && f[1] == 0x45 && f[2] == 0x4c && f[3] == 0x46
    && (|f| > 4 ==> f[4] == 2) && (|f| > 5 ==> f[5] == 1)
  }

  function TableStart(f: seq<Byte>): nat
    requires Elf64(f)
  {
    U64(f, 32)
  }

  function TableSize(f: seq<Byte>): nat
    requires Elf64(f)
  {
    U16(f, 56)
  }

  /** A table of 56-byte entries that reaches past the first page. */
  predicate FarTable(f: seq<Byte>) {
    Elf64(f) && U16(f, 54) == 56 && TableStart(f) + 56 * TableSize(f) > 4096
  }

  /** It lies inside the file. */
  predicate WholeTable(f: seq<Byte>) {
    && FarTable(f) && TableStart(f) < 0x8000_0000_0000_0000
    && (TableSize(f) == 0 || TableStart(f) + 56 * TableSize(f) <= |f|)
  }

  /** The fields of entry i: segment type, offset and size in the file. */
  function SegmentType(f: seq<Byte>, i: nat): nat
    requires WholeTable(f) && i < TableSize(f)
  {
    U32(f, TableStart(f) + 56 * i)
  }

  function SegmentOffset(f: seq<Byte>, i: nat): nat
    requires WholeTable(f) && i < TableSize(f)
  {
    U64(f, TableStart(f) + 56 * i + 8)
  }

  function SegmentSize(f: seq<Byte>, i: nat): nat
    requires WholeTable(f) && i < TableSize(f)
  {
    U64(f, TableStart(f) + 56 * i + 32)
  }

  /** How many of the first n entries are no PT_PHDR. */
  function Remaining(f: seq<Byte>, n: nat): nat
    requires WholeTable(f) && n <= TableSize(f)
  {
    if n == 0 then 0 else Remaining(f, n - 1) + (if SegmentType(f, n - 1) == 6 then 0 else 1)
  }

  /** Where the new table would end. */
  function NewEnd(f: seq<Byte>): nat
    requires WholeTable(f)
  {
    64 + 56 * Remaining(f, TableSize(f))
  }

  predicate MapsStart(f: seq<Byte>, i: nat)
    requires WholeTable(f) && i < TableSize(f)
  {
    SegmentType(f, i) == 1 && SegmentOffset(f, i) == 0 && SegmentSize(f, i) >= 4096
  }

  /** Some segment maps the first page, and no other one starts in it behind byte 64 and before the end of the table. */
  predicate RoomForTable(f: seq<Byte>) {
    && WholeTable(f) && NewEnd(f) <= 4096
    && (exists i: nat :: i < TableSize(f) && MapsStart(f, i))
    && (forall i: nat | i < TableSize(f) && SegmentType(f, i) != 6 && !MapsStart(f, i) ::
          SegmentOffset(f, i) < 64 || NewEnd(f) <= SegmentOffset(f, i))
  }

  /** An old table begins at byte 64. */
  predicate StaleTable(f: seq<Byte>) {
    |f| >= 68 && f[64..68] == [6, 0, 0, 0]
  }

  /** Which files are moved, and why each of the others is not. */
  lemma OutcomeIff(f: seq<Byte>)
    ensures Decide(f) == ShortHeader <==> CutHeader(f)
    ensures Decide(f) == NotElf <==> !CutHeader(f) && !Elf64(f)
    ensures Decide(f) == BadEntrySize <==> Elf64(f) && U16(f, 54) != 56
    ensures Decide(f) == AlreadyInFirstPage <==> Elf64(f) && U16(f, 54) == 56 && !FarTable(f)
    ensures Decide(f) == BadSeek <==> FarTable(f) && TableStart(f) >= 0x8000_0000_0000_0000
    ensures Decide(f) == Truncated <==> FarTable(f) && TableStart(f) < 0x8000_0000_0000_0000 && !WholeTable(f)
    ensures Decide(f) == NoRoom <==> WholeTable(f) && !RoomForTable(f)
    ensures Decide(f) == NotStale <==> RoomForTable(f) && !StaleTable(f)
    ensures Decide(f).Moved? <==> RoomForTable(f) && StaleTable(f)
  {
    hide Field, Limit, Kept, Entries, RoomForTable;
    HeaderIs(f);
    RoomNeedsTable(f);
    if Elf64(f) {
      FieldIs(f, PHOFF);
      FieldIs(f, PHENTSIZE);
      FieldIs(f, PHNUM);
    }
    if WholeTable(f) {
      RoomIs(f);
      StaleIs(f);
    }
  }

  lemma RoomNeedsTable(f: seq<Byte>)
    ensures RoomForTable(f) ==> WholeTable(f)
  {
  }

  lemma HeaderIs(f: seq<Byte>)
    ensures IsShort(f) <==> CutHeader(f)
    ensures !IsShort(f) && IsElf(f) <==> Elf64(f)
  {
    if |f| >= 4 {
      assert f[..4] == [f[0], f[1], f[2], f[3]];
    }
  }

  lemma StaleIs(f: seq<Byte>)
    ensures StaleTable(f) <==> |f| >= NEW_PHOFF + 4 && Field(f, NEW_PHOFF, 4) == PT_PHDR
  {
    FieldIs(f, NEW_PHOFF);
    if |f| >= 68 {
      assert f[64..68] == [f[64], f[65], f[66], f[67]];
    }
  }

  /** What is kept of the first n entries. */
  function KeptOf(f: seq<Byte>, n: nat): seq<Entry>
    requires WholeTable(f) && n <= TableSize(f)
  {
    if n == 0 then [] else Kept(Entries(f, TableStart(f), n))
  }

  lemma FieldsAre(f: seq<Byte>, i: nat)
    requires WholeTable(f) && i < TableSize(f)
    ensures var e := Slot(f, TableStart(f), i);
            && Type(e) == SegmentType(f, i) && Offset(e) == SegmentOffset(f, i) && FileSize(e) == SegmentSize(f, i)
  {
    var lo, hi := TableStart(f) + ENTRY_SIZE * i, TableStart(f) + ENTRY_SIZE * (i + 1);
    SliceOfSlice(f, lo, hi, 0, 4);
    SliceOfSlice(f, lo, hi, 8, 16);
    SliceOfSlice(f, lo, hi, 32, 40);
    FieldIs(f, lo);
    FieldIs(f, lo + 8);
    FieldIs(f, lo + 32);
  }

  lemma {:induction false} KeptAppend(entries: seq<Entry>, e: Entry)
    ensures Kept(entries + [e]) == Kept(entries) + (if Type(e) == PT_PHDR then [] else [e])
  {
    hide Type, Kept;
    NothingKept();
    KeptUnfold(entries + [e]);
    if entries == [] {
      assert ([] + [e])[1..] == [];
    } else {
      KeptUnfold(entries);
      KeptAppend(entries[1..], e);
      assert (entries + [e])[1..] == entries[1..] + [e];
    }
  }

  lemma KeptUnfold(entries: seq<Entry>)
    requires entries != []
    ensures Kept(entries) == (if Type(entries[0]) == PT_PHDR then [] else [entries[0]]) + Kept(entries[1..])
  {
  }

  lemma KeptStep(f: seq<Byte>, n: nat)
    requires WholeTable(f) && 0 < n <= TableSize(f)
    ensures KeptOf(f, n)
         == KeptOf(f, n - 1) + (if SegmentType(f, n - 1) == 6 then [] else [Slot(f, TableStart(f), n - 1)])
  {
    hide Kept, Slot, Type, SegmentType;
    var at := TableStart(f);
    FieldsAre(f, n - 1);
    if n == 1 { NothingKept(); } else { assert Entries(f, at, n)[..n - 1] == Entries(f, at, n - 1); }
    assert Entries(f, at, n) == Entries(f, at, n)[..n - 1] + [Slot(f, at, n - 1)];
    KeptAppend(Entries(f, at, n)[..n - 1], Slot(f, at, n - 1));
  }

  lemma NothingKept()
    ensures Kept([]) == []
  {
  }

  /** Entry i stays, at the place given by the number of those kept before it, unless it is a PT_PHDR. */
  lemma {:induction false} KeptAt(f: seq<Byte>, i: nat, n: nat)
    requires WholeTable(f) && i < n <= TableSize(f) && SegmentType(f, i) != 6
    ensures Remaining(f, i) < |KeptOf(f, n)| == Remaining(f, n)
    ensures KeptOf(f, n)[Remaining(f, i)] == Slot(f, TableStart(f), i)
    decreases n
  {
    hide KeptOf, Slot, SegmentType;
    KeptStep(f, n);
    KeptCount(f, n - 1);
    if i < n - 1 { KeptAt(f, i, n - 1); }
  }

  lemma {:induction false} KeptCount(f: seq<Byte>, n: nat)
    requires WholeTable(f) && n <= TableSize(f)
    ensures |KeptOf(f, n)| == Remaining(f, n)
    decreases n
  {
    hide KeptOf, SegmentType, Slot, WholeTable;
    if n > 0 {
      KeptStep(f, n);
      KeptCount(f, n - 1);
    } else {
      NoneKept(f);
    }
  }

  lemma NoneKept(f: seq<Byte>)
    requires WholeTable(f)
    ensures KeptOf(f, 0) == []
  {
  }

  /** Nothing else stays. */
  lemma {:induction false} KeptFrom(f: seq<Byte>, e: Entry, n: nat) returns (i: nat)
    requires WholeTable(f) && n <= TableSize(f) && e in KeptOf(f, n)
    ensures i < n && SegmentType(f, i) != 6 && e == Slot(f, TableStart(f), i)
    decreases n
  {
    hide Slot, SegmentType, Kept;
    KeptStep(f, n);
    if e in KeptOf(f, n - 1) { i := KeptFrom(f, e, n - 1); } else { i := n - 1; }
  }

  lemma {:induction false} LimitReached(kept: seq<Entry>, limit: nat, end: nat)
    ensures end <= Limit(kept, limit) <==>
            end <= limit
            && forall e | e in kept && !MapsFirstPage(e) && NEW_PHOFF <= Offset(e) ::
                 end <= Offset(e) || limit <= Offset(e)
    decreases |kept|
  {
    hide MapsFirstPage, Offset;
    if kept != [] {
      var e := kept[0];
      var next := if !MapsFirstPage(e) && NEW_PHOFF <= Offset(e) < limit then Offset(e) else limit;
      LimitReached(kept[1..], next, end);
      assert forall d :: d in kept <==> d == e || d in kept[1..];
    }
  }

  lemma RoomIs(f: seq<Byte>)
    requires WholeTable(f)
    ensures var kept := KeptOf(f, TableSize(f));
            RoomForTable(f)
            <==> (exists e | e in kept :: MapsFirstPage(e)) && NEW_PHOFF + ENTRY_SIZE * |kept| <= Limit(kept, PAGE_SIZE)
  {
    hide KeptOf, Limit, SegmentType, SegmentOffset, SegmentSize, Slot, Type, Offset, FileSize, Remaining;
    var n, at := TableSize(f), TableStart(f);
    var kept, end := KeptOf(f, n), NewEnd(f);
    KeptCount(f, n);
    LimitReached(kept, PAGE_SIZE, end);
    forall i: nat | i < n && SegmentType(f, i) != 6
      ensures Slot(f, at, i) in kept && (MapsFirstPage(Slot(f, at, i)) <==> MapsStart(f, i))
              && Offset(Slot(f, at, i)) == SegmentOffset(f, i)
    {
      KeptAt(f, i, n);
      FieldsAre(f, i);
    }
    forall e | e in kept
      ensures exists i: nat :: i < n && SegmentType(f, i) != 6 && e == Slot(f, at, i)
    {
      var i := KeptFrom(f, e, n);
    }
  }

  // ---------------------------------------------------------------- what the rewrite keeps

  lemma OverlayBytes(f: seq<Byte>, at: nat, s: seq<Byte>)
    requires at + |s| <= |f|
    ensures Overlay(f, at, s)[at..at + |s|] == s
    ensures forall i | 0 <= i < |f| && !(at <= i < at + |s|) :: Overlay(f, at, s)[i] == f[i]
  {
  }

  /** The three patches: two header fields and the new table. */
  lemma RewrittenBytes(f: seq<Byte>)
    requires Decide(f).Moved?
    ensures var g, table := Rewritten(f), Concat(OldKept(f));
            && |g| == |f| && g[NEW_PHOFF..NEW_PHOFF + |table|] == table
            && g[PHOFF..PHOFF + 8] == Bytes(NEW_PHOFF, 8) && g[PHNUM..PHNUM + 2] == Bytes(|OldKept(f)|, 2)
    ensures var g := Rewritten(f);
            forall i | 0 <= i < |f| && !(PHOFF <= i < PHOFF + 8) && !(PHNUM <= i < PHNUM + 2)
                       && !(NEW_PHOFF <= i < NEW_PHOFF + ENTRY_SIZE * |OldKept(f)|) :: g[i] == f[i]
  {
    hide Decide, OldKept, Bytes, Concat, Overlay;
    var kept := OldKept(f);
    LongEnough(f);
    var f1 := Overlay(f, NEW_PHOFF, Concat(kept));
    var f2 := Overlay(f1, PHOFF, Bytes(NEW_PHOFF, 8));
    var g := Overlay(f2, PHNUM, Bytes(|kept|, 2));
    OverlayBytes(f, NEW_PHOFF, Concat(kept));
    OverlayBytes(f1, PHOFF, Bytes(NEW_PHOFF, 8));
    OverlayBytes(f2, PHNUM, Bytes(|kept|, 2));
    assert g[NEW_PHOFF..NEW_PHOFF + |Concat(kept)|] == f1[NEW_PHOFF..NEW_PHOFF + |Concat(kept)|];
    assert g[PHOFF..PHOFF + 8] == f2[PHOFF..PHOFF + 8];
  }

  lemma {:induction false} ConcatSlots(entries: seq<Entry>, i: nat)
    requires i < |entries|
    ensures ENTRY_SIZE * (i + 1) <= |Concat(entries)|
    ensures Concat(entries)[ENTRY_SIZE * i..ENTRY_SIZE * (i + 1)] == entries[i]
  {
    var c := Concat(entries);
    if i == 0 {
      assert c[..ENTRY_SIZE] == entries[0];
    } else {
      ConcatSlots(entries[1..], i - 1);
      var rest := Concat(entries[1..]);
      assert c == entries[0] + rest;
      assert c[ENTRY_SIZE * i..ENTRY_SIZE * (i + 1)] == rest[ENTRY_SIZE * (i - 1)..ENTRY_SIZE * i];
    }
  }

  lemma SmallNumbers(n: nat)
    requires n <= 0xffff
    ensures Little(Bytes(NEW_PHOFF, 8)) == NEW_PHOFF && Little(Bytes(n, 2)) == n
  {
    assert ValuesOf(2) == 0x1_0000;
    assert ValuesOf(8) == 256 * ValuesOf(7) && ValuesOf(7) >= 1;
    LittleOfBytes(NEW_PHOFF, 8);
    LittleOfBytes(n, 2);
  }

  /** The rewritten header describes a table whose entries are the old ones, in order, without PT_PHDR. */
  lemma NewTableIsOldTableWithoutPhdr(f: seq<Byte>)
    requires Decide(f).Moved?
    ensures var g := Rewritten(f);
            && |g| == |f| && IsElf(g) && !IsShort(g)
            && Field(g, PHOFF, 8) == NEW_PHOFF && Field(g, PHENTSIZE, 2) == ENTRY_SIZE
            && Field(g, PHNUM, 2) == |OldKept(f)| && NEW_PHOFF + ENTRY_SIZE * |OldKept(f)| <= |g|
            && Entries(g, NEW_PHOFF, |OldKept(f)|) == OldKept(f)
  {
    hide Kept, Concat, Limit, IsElf, IsShort, Overlay, Bytes, MapsFirstPage, Little, Rewritten, InFirstPage;
    var g, kept := Rewritten(f), OldKept(f);
    LongEnough(f);
    RewrittenBytes(f);
    assert |kept| <= Field(f, PHNUM, 2) <= 0xffff by { TwoBytes(f, PHNUM); }
    SmallNumbers(|kept|);
    HeaderUnchanged(f, g);
    TableSlots(g, kept);
  }

  /** The moved table, byte by byte: entry i of the old one, unless it is a PT_PHDR, comes after those kept before. */
  lemma MovedEntries(f: seq<Byte>, i: nat)
    requires Decide(f).Moved? && RoomForTable(f) && i < TableSize(f) && SegmentType(f, i) != 6
    ensures var g, n, to, from := Rewritten(f), TableSize(f), 64 + 56 * Remaining(f, i), TableStart(f) + 56 * i;
            && |g| == |f| && U64(g, 32) == 64 && U16(g, 56) == Remaining(f, n) && Remaining(f, i) < Remaining(f, n)
            && to + 56 <= |g| && g[to..to + 56] == f[from..from + 56]
  {
    hide Kept, Decide, Rewritten, Field, Slot, SegmentType, OldKept, KeptOf, Remaining, Entries;
    hide U16, U64, IsElf, IsShort;
    var g, n, j := Rewritten(f), TableSize(f), Remaining(f, i);
    OldKeptIs(f);
    KeptAt(f, i, n);
    NewTableIsOldTableWithoutPhdr(f);
    FieldIs(g, PHOFF);
    FieldIs(g, PHNUM);
    EntryIs(g, NEW_PHOFF, |OldKept(f)|, j);
    SlotIs(f, TableStart(f), i);
    SlotIs(g, NEW_PHOFF, j);
  }

  lemma EntryIs(f: seq<Byte>, at: nat, n: nat, j: nat)
    requires at + ENTRY_SIZE * n <= |f| && j < n
    ensures at + ENTRY_SIZE * (j + 1) <= |f| && Entries(f, at, n)[j] == Slot(f, at, j)
  {
  }

  lemma SlotIs(f: seq<Byte>, at: nat, i: nat)
    requires at + ENTRY_SIZE * (i + 1) <= |f|
    ensures Slot(f, at, i) == f[at + 56 * i..at + 56 * i + 56]
  {
  }

  lemma OldKeptIs(f: seq<Byte>)
    requires Decide(f).Moved? && RoomForTable(f)
    ensures TableSize(f) > 0 && OldKept(f) == KeptOf(f, TableSize(f))
  {
    hide Kept, Decide, Field;
    FieldIs(f, PHOFF);
    FieldIs(f, PHNUM);
  }

  lemma TwoBytes(f: seq<Byte>, at: nat)
    requires at + 2 <= |f|
    ensures Field(f, at, 2) <= 0xffff
  {
    var s := f[at..at + 2];
    assert Little(s) == s[0] + 256 * Little(s[1..]) && Little(s[1..]) == s[1] + 256 * Little(s[2..]);
  }

  lemma TableSlots(g: seq<Byte>, kept: seq<Entry>)
    requires NEW_PHOFF + ENTRY_SIZE * |kept| <= |g|
    requires g[NEW_PHOFF..NEW_PHOFF + ENTRY_SIZE * |kept|] == Concat(kept)
    ensures Entries(g, NEW_PHOFF, |kept|) == kept
  {
    hide Concat;
    forall i | 0 <= i < |kept| ensures Slot(g, NEW_PHOFF, i) == kept[i] {
      TableSlot(g, kept, i);
    }
  }

  lemma TableSlot(g: seq<Byte>, kept: seq<Entry>, i: nat)
    requires i < |kept| && NEW_PHOFF + ENTRY_SIZE * |kept| <= |g|
    requires g[NEW_PHOFF..NEW_PHOFF + ENTRY_SIZE * |kept|] == Concat(kept)
    ensures Slot(g, NEW_PHOFF, i) == kept[i]
  {
    hide Concat;
    ConcatSlots(kept, i);
    var lo, hi, end := ENTRY_SIZE * i, ENTRY_SIZE * (i + 1), ENTRY_SIZE * |kept|;
    assert Concat(kept)[lo..hi] == kept[i];
    SliceOfSlice(g, NEW_PHOFF, NEW_PHOFF + end, lo, hi);
  }

  lemma HeaderUnchanged(f: seq<Byte>, g: seq<Byte>)
    requires |f| == |g| > PAGE_SIZE && IsElf(f)
    requires forall i | 0 <= i < HEADER_SIZE && !(PHOFF <= i < PHOFF + 8) && !(PHNUM <= i < PHNUM + 2) :: g[i] == f[i]
    ensures IsElf(g) && !IsShort(g) && Field(g, PHENTSIZE, 2) == Field(f, PHENTSIZE, 2)
  {
    assert g[..4] == f[..4];
    assert g[PHENTSIZE..PHENTSIZE + 2] == f[PHENTSIZE..PHENTSIZE + 2];
  }

  /** Whatever starts at or after the new table's place starts after its end, so its bytes are untouched. */
  lemma SegmentsKeepTheirBytes(f: seq<Byte>, e: Entry)
    requires Decide(f).Moved? && e in OldKept(f) && Offset(e) >= NEW_PHOFF
    ensures Offset(e) >= NEW_PHOFF + ENTRY_SIZE * |OldKept(f)|
    ensures Offset(e) + FileSize(e) <= |f| ==>
              Rewritten(f)[Offset(e)..Offset(e) + FileSize(e)] == f[Offset(e)..Offset(e) + FileSize(e)]
  {
    LimitBounds(OldKept(f), PAGE_SIZE);
    RewrittenBytes(f);
  }

  /** The kernel finds the new table in the first page and inside a segment that maps it, and a second
      run has nothing left to do. */
  lemma SecondRunDoesNothing(f: seq<Byte>)
    requires Decide(f).Moved?
    ensures Decide(Rewritten(f)) == AlreadyInFirstPage
    ensures InFirstPage(NEW_PHOFF, ENTRY_SIZE, |OldKept(f)|)
    ensures exists e | e in OldKept(f) :: MapsFirstPage(e) && NEW_PHOFF + ENTRY_SIZE * |OldKept(f)| <= FileSize(e)
  {
    LongEnough(f);
    NewTableIsOldTableWithoutPhdr(f);
    var e :| e in OldKept(f) && MapsFirstPage(e);
  }

  // ---------------------------------------------------------------- the script

  method ReadEntries(table: seq<Byte>, n: nat) returns (entries: seq<Entry>)
    requires |table| == ENTRY_SIZE * n
    ensures entries == Entries(table, 0, n)
  {
    entries := [];
    var i := 0;
    while i < n
      invariant 0 <= i <= n && |entries| == i && forall k | 0 <= k < i :: entries[k] == Slot(table, 0, k)
    {
      entries := entries + [Slot(table, 0, i)];
      i := i + 1;
    }
  }

  /** The loop over the kept entries. */
  method FindRoom(kept: seq<Entry>) returns (limit: nat, mapped: bool)
    ensures limit == Limit(kept, PAGE_SIZE) && mapped == exists e | e in kept :: MapsFirstPage(e)
  {
    limit, mapped := PAGE_SIZE, false;
    var i := 0;
    while i < |kept|
      invariant 0 <= i <= |kept|
      invariant Limit(kept[i..], limit) == Limit(kept, PAGE_SIZE)
      invariant mapped <==> exists k | 0 <= k < i :: MapsFirstPage(kept[k])
    {
      assert kept[i..][1..] == kept[i + 1..];
      var e := kept[i];
      if Type(e) == PT_LOAD && Offset(e) == 0 && FileSize(e) >= PAGE_SIZE {
        mapped := true;
      } else if NEW_PHOFF <= Offset(e) < limit {
        limit := Offset(e);
      }
      i := i + 1;
    }
    if mapped {
      var k :| 0 <= k < |kept| && MapsFirstPage(kept[k]);
      assert kept[k] in kept;
    }
  }

  /** Writes s into the file at a position, leaving the rest alone. */
  method WriteAt(f: array<Byte>, at: nat, s: seq<Byte>)
    requires at + |s| <= f.Length
    modifies f
    ensures f[..] == Overlay(old(f[..]), at, s)
  {
    var i := 0;
    while i < |s|
      invariant 0 <= i <= |s|
      invariant f[..] == Overlay(old(f[..]), at, s[..i])
    {
      f[at + i] := s[i];
      i := i + 1;
      assert f[..] == Overlay(old(f[..]), at, s[..i]);
    }
    assert s[..i] == s;
  }

  /** main: decides from the file's bytes, and rewrites it only when the table moves. */
  method Relocate(f: array<Byte>) returns (r: Outcome)
    modifies f
    ensures r == Decide(old(f[..]))
    ensures f[..] == if r.Moved? then Rewritten(old(f[..])) else old(f[..])
  {
    hide Field, Kept, Concat, Limit, Entries, IsElf, IsShort, Overlay, Bytes, MapsFirstPage;
    ghost var b := f[..];
    var hdr := f[..if f.Length < HEADER_SIZE then f.Length else HEADER_SIZE];
    HeaderPrefix(b, hdr);
    if IsShort(hdr) { return ShortHeader; }
    if !IsElf(hdr) { return NotElf; }
    var phoff := Field(hdr, PHOFF, 8);
    var phentsize, phnum := Field(hdr, PHENTSIZE, 2), Field(hdr, PHNUM, 2);
    if phentsize != ENTRY_SIZE { return BadEntrySize; }
    if InFirstPage(phoff, phentsize, phnum) { return AlreadyInFirstPage; }
    if phoff >= MAX_SEEK { return BadSeek; }
    if phoff + phentsize * phnum > f.Length && phnum > 0 { return Truncated; }

    var table := if phnum == 0 then [] else f[phoff..phoff + phentsize * phnum];
    var entries := ReadEntries(table, phnum);
    if phnum != 0 {
      SameEntries(b, table, phoff, phnum);
    }
    var kept := Kept(entries);
    var limit, mapped := FindRoom(kept);
    var new_ := Concat(kept);
    if !mapped || NEW_PHOFF + |new_| > limit { return NoRoom; }
    LimitBounds(kept, PAGE_SIZE);
    if Field(f[..], NEW_PHOFF, 4) != PT_PHDR { return NotStale; }
    r := Moved(|kept|);
    assert Decide(b) == r;
    WriteAt(f, NEW_PHOFF, new_);
    WriteAt(f, PHOFF, Bytes(NEW_PHOFF, 8));
    WriteAt(f, PHNUM, Bytes(|kept|, 2));
  }

  lemma HeaderPrefix(b: seq<Byte>, hdr: seq<Byte>)
    requires hdr == b[..if |b| < HEADER_SIZE then |b| else HEADER_SIZE]
    ensures IsShort(hdr) == IsShort(b) && IsElf(hdr) == IsElf(b)
    ensures !IsShort(b) && IsElf(b) ==> |hdr| >= PHNUM + 2
    ensures forall at, n | 0 <= at && 0 <= n && at + n <= |hdr| :: Field(hdr, at, n) == Field(b, at, n)
  {
    assert |b| >= 4 ==> hdr[..4] == b[..4];
    forall at, n | 0 <= at && 0 <= n && at + n <= |hdr| ensures Field(hdr, at, n) == Field(b, at, n) {
      assert hdr[at..at + n] == b[at..at + n];
    }
  }

  lemma SliceOfSlice(b: seq<Byte>, lo: nat, hi: nat, i: nat, j: nat)
    requires lo <= hi <= |b| && i <= j <= hi - lo
    ensures b[lo..hi][i..j] == b[lo + i..lo + j]
  {
    var inner, outer := b[lo..hi][i..j], b[lo + i..lo + j];
    assert |inner| == |outer|;
    forall k | 0 <= k < j - i ensures inner[k] == outer[k] {
      assert inner[k] == b[lo..hi][i + k] == b[lo + (i + k)];
    }
  }

  lemma SameEntries(b: seq<Byte>, table: seq<Byte>, phoff: nat, phnum: nat)
    requires phoff + ENTRY_SIZE * phnum <= |b| && table == b[phoff..phoff + ENTRY_SIZE * phnum]
    ensures Entries(table, 0, phnum) == Entries(b, phoff, phnum)
  {
    forall i | 0 <= i < phnum ensures Slot(table, 0, i) == Slot(b, phoff, i) {
      assert 0 <= ENTRY_SIZE * i <= ENTRY_SIZE * (i + 1) <= ENTRY_SIZE * phnum;
      SliceOfSlice(b, phoff, phoff + ENTRY_SIZE * phnum, ENTRY_SIZE * i, ENTRY_SIZE * (i + 1));
    }
  }
}
