/** The directory poller: events are the difference between two scans of the watched names. */
module WatcherPoll {
  import opened Common
  import opened Scanning

  /** The decimal texts of a file's modification time and size. */
  datatype Stat = Stat(mtime: string, size: string)

  /** An entry of a directory; stat is what statSync gives, if it can be examined. */
  datatype Entry = Entry(name: string, isDirectory: bool, stat: Option<Stat>)

  /** A watched file with the signature a scan gave it, in the order of the scan's map. */
  datatype Item = Item(file: string, signature: string)

  datatype Event = Create(file: string) | Update(file: string) | Delete(file: string)

  predicate Distinct(items: seq<Item>) {
    forall i, j | 0 <= i < j < |items| :: items[i].file != items[j].file
  }

  function Files(items: seq<Item>): set<string> {
    set i | 0 <= i < |items| :: items[i].file
  }

  function Signature(items: seq<Item>, file: string): Option<string> {
    if items == [] then None
    else if items[0].file == file then Some(items[0].signature)
    else Signature(items[1..], file)
  }

  lemma {:induction false} SignatureOf(items: seq<Item>, file: string)
    ensures Signature(items, file).None? <==> file !in Files(items)
    ensures Signature(items, file).Some? ==> Item(file, Signature(items, file).value) in items
  {
    if items != [] {
      SignatureOf(items[1..], file);
      FilesSplit(items, 1);
      assert Files(items[..1]) == {items[0].file};
    }
  }

  lemma FilesSplit(items: seq<Item>, k: nat)
    requires k <= |items|
    ensures Files(items) == Files(items[..k]) + Files(items[k..])
  {
    forall i | 0 <= i < |items|
      ensures items[i].file in Files(items[..k]) + Files(items[k..])
    {
      assert if i < k then items[i] == items[..k][i] else items[i] == items[k..][i - k];
    }
  }

  /** The event for one file of the new scan. */
  function Seen(prior: Option<string>, it: Item): seq<Event> {
    match prior
    case None => [Create(it.file)]
    case Some(signature) => if signature != it.signature then [Update(it.file)] else []
  }

  function Appeared(previous: seq<Item>, next: seq<Item>): seq<Event> {
    if next == [] then []
    else
      var last := next[|next| - 1];
      Appeared(previous, next[..|next| - 1]) + Seen(Signature(previous, last.file), last)
  }

  function Gone(previous: seq<Item>, next: seq<Item>): seq<Event> {
    if previous == [] then []
    else
      var last := previous[|previous| - 1];
      Gone(previous[..|previous| - 1], next) + (if last.file in Files(next) then [] else [Delete(last.file)])
  }

  /** What one timer tick publishes. */
  function Diff(previous: seq<Item>, next: seq<Item>): seq<Event> {
    Appeared(previous, next) + Gone(previous, next)
  }

  // ---------------------------------------------------------------- what a listener can rebuild

  /** A strict listener: creating a known file, or touching an unknown one, is an error. */
  function Listen(known: set<string>, e: Event): Option<set<string>> {
    match e
    case Create(f) => if f in known then None else Some(known + {f})
    case Update(f) => if f in known then Some(known) else None
    case Delete(f) => if f in known then Some(known - {f}) else None
  }

  function Replay(known: set<string>, events: seq<Event>): Option<set<string>> {
    if events == [] then Some(known)
    else
      var before := Replay(known, events[..|events| - 1]);
      if before.None? then None else Listen(before.value, events[|events| - 1])
  }

  lemma {:induction false} ReplayAppends(known: set<string>, a: seq<Event>, b: seq<Event>)
    ensures Replay(known, a + b) ==
            if Replay(known, a).None? then None else Replay(Replay(known, a).value, b)
    decreases |b|
  {
    if b == [] {
      assert a + b == a;
    } else {
      var init := b[..|b| - 1];
      ReplayAppends(known, a, init);
      assert (a + b)[..|a + b| - 1] == a + init;
    }
  }

  lemma ReplayShort(known: set<string>, e: Event)
    ensures Replay(known, []) == Some(known) && Replay(known, [e]) == Listen(known, e)
  {
    assert [e][..0] == [];
  }

  lemma FilesLast(items: seq<Item>)
    requires Distinct(items) && items != []
    ensures Distinct(items[..|items| - 1])
    ensures items[|items| - 1].file !in Files(items[..|items| - 1])
    ensures Files(items) == Files(items[..|items| - 1]) + {items[|items| - 1].file}
  {
    FilesSplit(items, |items| - 1);
    assert items[|items| - 1..] == [items[|items| - 1]];
  }

  lemma {:induction false} ReplayAppeared(previous: seq<Item>, next: seq<Item>)
    requires Distinct(next)
    ensures Replay(Files(previous), Appeared(previous, next)) == Some(Files(previous) + Files(next))
    decreases |next|
  {
    if next == [] {
      assert Files(previous) + Files(next) == Files(previous);
    } else {
      hide Files, Replay, Distinct;
      var init, last := next[..|next| - 1], next[|next| - 1];
      FilesLast(next);
      ReplayAppeared(previous, init);
      SignatureOf(previous, last.file);
      var new_ := Seen(Signature(previous, last.file), last);
      ReplayAppends(Files(previous), Appeared(previous, init), new_);
      var known := Files(previous) + Files(init);
      ReplayShort(known, if new_ == [] then Create("") else new_[0]);
      assert Files(previous) + Files(next) == known + {last.file};
      assert last.file in Files(previous) ==> known + {last.file} == known;
    }
  }

  lemma {:induction false} ReplayGone(previous: seq<Item>, next: seq<Item>, known: set<string>)
    requires Distinct(previous) && Files(previous) <= known
    ensures Replay(known, Gone(previous, next)) == Some(known - (Files(previous) - Files(next)))
    decreases |previous|
  {
    if previous == [] {
      assert known - (Files(previous) - Files(next)) == known;
    } else {
      hide Files, Replay, Distinct;
      var init, last := previous[..|previous| - 1], previous[|previous| - 1];
      FilesLast(previous);
      ReplayGone(init, next, known);
      var left := known - (Files(init) - Files(next));
      var new_ := if last.file in Files(next) then [] else [Delete(last.file)];
      ReplayAppends(known, Gone(init, next), new_);
      ReplayShort(left, Delete(last.file));
      assert known - (Files(previous) - Files(next)) == if last.file in Files(next) then left else left - {last.file};
    }
  }

  /** A tick's events are all acceptable to a listener that knows the old scan, and leave it knowing the new one. */
  lemma TickReplays(previous: seq<Item>, next: seq<Item>)
    requires Distinct(previous) && Distinct(next)
    ensures Replay(Files(previous), Diff(previous, next)) == Some(Files(next))
  {
    ReplayAppeared(previous, next);
    ReplayGone(previous, next, Files(previous) + Files(next));
    ReplayAppends(Files(previous), Appeared(previous, next), Gone(previous, next));
    assert Files(previous) + Files(next) - (Files(previous) - Files(next)) == Files(next);
  }

  /** All events of a run of scans. */
  function Log(scans: seq<seq<Item>>): seq<Event>
    requires |scans| > 0
  {
    if |scans| == 1 then []
    else Log(scans[..|scans| - 1]) + Diff(scans[|scans| - 2], scans[|scans| - 1])
  }

  /** Over any run, each file's events alternate between creation and deletion, updates come only while it is
      present, and replaying them from the first scan gives the files of the last. */
  lemma {:induction false} RunReplays(scans: seq<seq<Item>>)
    requires |scans| > 0 && forall i | 0 <= i < |scans| :: Distinct(scans[i])
    ensures Replay(Files(scans[0]), Log(scans)) == Some(Files(scans[|scans| - 1]))
    decreases |scans|
  {
    if |scans| > 1 {
      var init := scans[..|scans| - 1];
      RunReplays(init);
      TickReplays(scans[|scans| - 2], scans[|scans| - 1]);
      ReplayAppends(Files(scans[0]), Log(init), Diff(scans[|scans| - 2], scans[|scans| - 1]));
    }
  }

  // ---------------------------------------------------------------- which event, exactly

  /** The one event a file gets, read off the two scans. */
  ghost predicate Expected(previous: seq<Item>, next: seq<Item>, e: Event) {
    var old_, new_ := Signature(previous, e.file), Signature(next, e.file);
    match e
    case Create(_) => old_.None? && new_.Some?
    case Update(_) => old_.Some? && new_.Some? && old_ != new_
    case Delete(_) => old_.Some? && new_.None?
  }

  lemma {:induction false} AppearedIff(previous: seq<Item>, next: seq<Item>, e: Event)
    ensures e in Appeared(previous, next) <==>
            exists i | 0 <= i < |next| :: e in Seen(Signature(previous, next[i].file), next[i])
    decreases |next|
  {
    if next != [] {
      var init := next[..|next| - 1];
      AppearedIff(previous, init, e);
      assert forall i | 0 <= i < |init| :: init[i] == next[i];
    }
  }

  lemma {:induction false} GoneIff(previous: seq<Item>, next: seq<Item>, e: Event)
    ensures e in Gone(previous, next) <==> e.Delete? && e.file in Files(previous) && e.file !in Files(next)
    decreases |previous|
  {
    if previous != [] {
      var init := previous[..|previous| - 1];
      GoneIff(init, next, e);
      FilesSplit(previous, |previous| - 1);
      assert Files(previous[|previous| - 1..]) == {previous[|previous| - 1].file};
    }
  }

  lemma {:induction false} SignatureIs(items: seq<Item>, i: nat)
    requires Distinct(items) && i < |items|
    ensures Signature(items, items[i].file) == Some(items[i].signature)
    decreases |items|
  {
    if i > 0 {
      SignatureIs(items[1..], i - 1);
    }
  }

  /** A tick publishes an event exactly when the two scans differ on that file in that way. */
  lemma DiffIff(previous: seq<Item>, next: seq<Item>, e: Event)
    requires Distinct(next)
    ensures e in Diff(previous, next) <==> Expected(previous, next, e)
  {
    AppearedIff(previous, next, e);
    GoneIff(previous, next, e);
    SignatureOf(previous, e.file);
    SignatureOf(next, e.file);
    forall i | 0 <= i < |next| ensures Signature(next, next[i].file) == Some(next[i].signature) {
      SignatureIs(next, i);
    }
    if Signature(next, e.file).Some? {
      var i :| 0 <= i < |next| && next[i] == Item(e.file, Signature(next, e.file).value);
      assert e in Seen(Signature(previous, e.file), next[i]) <==> !e.Delete? && Expected(previous, next, e);
    }
  }

  // ---------------------------------------------------------------- the poller

  /** The signature of a directory entry; a file that cannot be examined still counts as present. */
  function SignatureText(e: Entry): string {
    if e.isDirectory then "directory" else if e.stat.Some? then StatText(e.stat.value) else "file"
  }

  function StatText(stat: Stat): string {
    stat.mtime + ":" + stat.size
  }

  /** The watched entries of a listing, in its order; an unreadable directory has none. */
  function Watched(names: set<string>, entries: seq<Entry>): seq<Item> {
    if entries == [] then []
    else
      var last := entries[|entries| - 1];
      Watched(names, entries[..|entries| - 1])
      + (if last.name in names then [Item(last.name, SignatureText(last))] else [])
  }

  /** A directory lists each name once, and numbers have no colon. */
  predicate Listing(entries: seq<Entry>) {
    && (forall i, j | 0 <= i < j < |entries| :: entries[i].name != entries[j].name)
    && (forall e | e in entries :: StatOk(e))
  }

  predicate StatOk(e: Entry) {
    e.stat.Some? ==> ':' !in e.stat.value.mtime && ':' !in e.stat.value.size
  }

  // ---------------------------------------------------------------- events, from the entries

  /** What two entries of a name have to differ in for an update: one is a directory and the other is not, one can be
      examined and the other cannot, or the time or the size is another. */
  predicate Edited(a: Entry, b: Entry) {
    if a.isDirectory || b.isDirectory then a.isDirectory != b.isDirectory else a.stat != b.stat
  }

  /** The events of a tick, read off the listings before and after it. */
  predicate Happened(names: set<string>, before: seq<Entry>, after: seq<Entry>, e: Event) {
    && e.file in names
    && match e
       case Create(f) => (forall a | a in before :: a.name != f) && exists b | b in after :: b.name == f
       case Delete(f) => (exists a | a in before :: a.name == f) && forall b | b in after :: b.name != f
       case Update(f) => exists a, b | a in before && b in after :: a.name == f && b.name == f && Edited(a, b)
  }

  lemma ColonSplits(a: string, b: string, c: string, d: string)
    requires ':' !in a && ':' !in c && a + ":" + b == c + ":" + d
    ensures a == c && b == d
  {
    UntilStops(a, ":" + b, Is(':'));
    UntilStops(c, ":" + d, Is(':'));
    assert a + ":" + b == a + (":" + b) && c + ":" + d == c + (":" + d);
    assert (":" + b)[1..] == b && (":" + d)[1..] == d;
  }

  lemma SignaturesDiffer(a: Entry, b: Entry)
    requires StatOk(a) && StatOk(b)
    ensures SignatureText(a) != SignatureText(b) <==> Edited(a, b)
  {
    if !a.isDirectory && a.stat.Some? { HasColon(a.stat.value); }
    if !b.isDirectory && b.stat.Some? { HasColon(b.stat.value); }
    if !a.isDirectory && !b.isDirectory && a.stat.Some? && b.stat.Some? && SignatureText(a) == SignatureText(b) {
      ColonSplits(a.stat.value.mtime, a.stat.value.size, b.stat.value.mtime, b.stat.value.size);
    }
  }

  lemma HasColon(stat: Stat)
    ensures ':' in StatText(stat) && StatText(stat) != "directory" && StatText(stat) != "file"
  {
    assert StatText(stat)[|stat.mtime|] == ':';
  }

  /** A scan gives each watched entry its signature, and nothing else. */
  lemma {:induction false} WatchedSignature(names: set<string>, entries: seq<Entry>, file: string)
    requires Listing(entries)
    ensures var r := Signature(Watched(names, entries), file);
            && (r.None? <==> file !in names || forall e | e in entries :: e.name != file)
            && forall e | e in entries && e.name == file && file in names :: r == Some(SignatureText(e))
    decreases |entries|
  {
    hide SignatureText;
    if entries != [] {
      var init, last := entries[..|entries| - 1], entries[|entries| - 1];
      WatchedSignature(names, init, file);
      var tail := if last.name in names then [Item(last.name, SignatureText(last))] else [];
      SignatureAppend(Watched(names, init), tail, file);
      assert entries == init + [last];
      assert forall e | e in init :: e.name != last.name;
    }
  }

  lemma {:induction false} SignatureAppend(a: seq<Item>, b: seq<Item>, file: string)
    ensures Signature(a + b, file) == if Signature(a, file).Some? then Signature(a, file) else Signature(b, file)
    decreases |a|
  {
    if a == [] {
      assert a + b == b;
    } else {
      SignatureAppend(a[1..], b, file);
      assert (a + b)[1..] == a[1..] + b;
    }
  }

  /** A tick publishes exactly what happened to the watched entries between two listings. */
  lemma EventsIff(names: set<string>, before: seq<Entry>, after: seq<Entry>, e: Event)
    requires Listing(before) && Listing(after)
    ensures e in Diff(Watched(names, before), Watched(names, after)) <==> Happened(names, before, after, e)
  {
    hide Watched, Diff, Signature, SignatureText, Edited;
    WatchedDistinct(names, after);
    DiffIff(Watched(names, before), Watched(names, after), e);
    WatchedSignature(names, before, e.file);
    WatchedSignature(names, after, e.file);
    forall a, b | a in before && b in after ensures SignatureText(a) != SignatureText(b) <==> Edited(a, b) {
      SignaturesDiffer(a, b);
    }
  }

  lemma {:induction false} WatchedNames(names: set<string>, entries: seq<Entry>, file: string)
    ensures file in Files(Watched(names, entries)) <==>
            file in names && exists i | 0 <= i < |entries| :: entries[i].name == file
    decreases |entries|
  {
    if entries != [] {
      var init, last := entries[..|entries| - 1], entries[|entries| - 1];
      WatchedNames(names, init, file);
      assert forall i | 0 <= i < |init| :: init[i] == entries[i];
      var w := Watched(names, entries);
      FilesSplit(w, |Watched(names, init)|);
      assert w[..|Watched(names, init)|] == Watched(names, init);
      var tail := w[|Watched(names, init)|..];
      if last.name in names {
        assert tail == [Item(last.name, SignatureText(last))];
        assert tail[0].file in Files(tail);
      }
      assert Files(tail) == if last.name in names then {last.name} else {};
      assert entries[|entries| - 1].name == last.name;
    }
  }

  lemma {:induction false} WatchedDistinct(names: set<string>, entries: seq<Entry>)
    requires Listing(entries)
    ensures Distinct(Watched(names, entries))
    decreases |entries|
  {
    if entries != [] {
      var init, last := entries[..|entries| - 1], entries[|entries| - 1];
      WatchedDistinct(names, init);
      WatchedNames(names, init, last.name);
      var w := Watched(names, init);
      forall i | 0 <= i < |w| && last.name in names ensures w[i].file != last.name {
        assert w[i].file in Files(w);
      }
    }
  }

  lemma NoItems(previous: seq<Item>, next: seq<Item>)
    ensures Appeared(previous, next[..0]) == [] && Gone(previous[..0], next) == []
  {
  }

  lemma AppearedNext(previous: seq<Item>, next: seq<Item>, i: nat)
    requires i < |next|
    ensures Appeared(previous, next[..i + 1]) ==
            Appeared(previous, next[..i]) + Seen(Signature(previous, next[i].file), next[i])
  {
    assert next[..i + 1][..i] == next[..i];
  }

  lemma GoneNext(previous: seq<Item>, next: seq<Item>, i: nat)
    requires i < |previous|
    ensures Gone(previous[..i + 1], next) ==
            Gone(previous[..i], next) + (if previous[i].file in Files(next) then [] else [Delete(previous[i].file)])
  {
    assert previous[..i + 1][..i] == previous[..i];
  }

  /** What was listed; nothing if the directory could not be read. */
  function Listed(entries: Option<seq<Entry>>): seq<Entry> {
    if entries.Some? then entries.value else []
  }

  class Poller {
    const names: set<string>
    var previous: seq<Item>
    var published: seq<Event>
    /** What the last scan found in the directory. */
    ghost var last: seq<Entry>

    ghost predicate Valid()
      reads this
    {
      Listing(last) && previous == Watched(names, last)
    }

    constructor (names: set<string>, entries: Option<seq<Entry>>)
      requires Listing(Listed(entries))
      ensures Valid() && this.names == names && last == Listed(entries) && published == []
    {
      this.names := names;
      published := [];
      previous, last := [], Listed(entries);
      new;
      previous := Scan(entries);
    }

    method Scan(entries: Option<seq<Entry>>) returns (next: seq<Item>)
      ensures next == Watched(names, Listed(entries))
    {
      next := [];
      if entries.None? { return; }
      var i := 0;
      while i < |entries.value|
        invariant 0 <= i <= |entries.value| && next == Watched(names, entries.value[..i])
      {
        var entry := entries.value[i];
        assert entries.value[..i + 1][..i] == entries.value[..i];
        i := i + 1;
        if entry.name !in names { continue; }
        if entry.isDirectory {
          next := next + [Item(entry.name, "directory")];
          continue;
        }
        match entry.stat {
          case Some(stat) => next := next + [Item(entry.name, stat.mtime + ":" + stat.size)];
          case None => next := next + [Item(entry.name, "file")];
        }
      }
      assert entries.value[..i] == entries.value;
    }

    method Tick(entries: Option<seq<Entry>>)
      requires Valid() && Listing(Listed(entries))
      modifies this
      ensures Valid() && last == Listed(entries)
      ensures published == old(published) + Diff(old(previous), previous)
      ensures forall e :: e in published[|old(published)|..] <==> Happened(names, old(last), last, e)
    {
      hide Files, Appeared, Gone, Watched, Happened;
      var next := Scan(entries);
      ghost var log := published;
      NoItems(previous, next);
      var i := 0;
      while i < |next|
        invariant 0 <= i <= |next| && previous == old(previous)
        invariant published == log + Appeared(previous, next[..i])
      {
        AppearedNext(previous, next, i);
        var prior := Signature(previous, next[i].file);
        if prior.None? {
          published := published + [Create(next[i].file)];
        } else if prior.value != next[i].signature {
          published := published + [Update(next[i].file)];
        }
        i := i + 1;
      }
      assert next[..i] == next;
      i := 0;
      while i < |previous|
        invariant 0 <= i <= |previous| && previous == old(previous)
        invariant published == log + Appeared(previous, next) + Gone(previous[..i], next)
      {
        GoneNext(previous, next, i);
        if previous[i].file !in Files(next) {
          published := published + [Delete(previous[i].file)];
        }
        i := i + 1;
      }
      assert previous[..i] == previous;
      previous, last := next, Listed(entries);
      assert published[|log|..] == Diff(old(previous), next);
      forall e ensures e in Diff(old(previous), next) <==> Happened(names, old(last), last, e) {
        EventsIff(names, old(last), last, e);
      }
    }
  }
}
