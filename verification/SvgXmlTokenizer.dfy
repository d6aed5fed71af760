/** The tokenizer as the source runs it: over a NUL-terminated buffer that it cuts into strings in
    place.  Names and values are positions in the buffer, read up to the next NUL when a callback runs. */
module SvgXmlTokenizer {
  import opened Scanning
  import opened SvgXml


  function CString(s: seq<char>): string { Until(s, Is(NUL)) }

  /** At position p of b stands the string v, cut off by a NUL at or before limit. */
  ghost predicate Cut(b: seq<char>, p: nat, v: string, limit: nat) {
    p + |v| <= limit < |b| && b[p..p + |v|] == v && b[p + |v|] == NUL && forall c | c in v :: c != NUL
  }

  lemma CutReads(b: seq<char>, p: nat, v: string, limit: nat)
    requires Cut(b, p, v, limit)
    ensures CString(b[p..]) == v
  {
    assert b[p..] == v + b[p + |v|..];
    UntilStops(v, b[p + |v|..], Is(NUL));
  }

  /** Cutting further right leaves earlier strings alone. */
  lemma CutStays(b: seq<char>, b': seq<char>, p: nat, v: string, limit: nat, limit': nat)
    requires Cut(b, p, v, limit) && limit <= limit' < |b'| && |b| == |b'|
    requires b'[..limit] == b[..limit] && (b[limit] == NUL ==> b'[limit] == NUL)
    ensures Cut(b', p, v, limit')
  {
    forall i | 0 <= i < limit ensures b'[i] == b[i] {
      assert b'[i] == b'[..limit][i] && b[i] == b[..limit][i];
    }
    assert b'[p..p + |v|] == b[p..p + |v|];
  }

  /** The text from s to its terminator at end. */
  ghost predicate Text(buf: array<char>, s: nat, end: nat)
    reads buf
  {
    s <= end < buf.Length && buf[end] == NUL && forall i | s <= i < end :: buf[i] != NUL
  }

  /** Moves to the first stop character, or to the terminator. */
  method Scan(buf: array<char>, s: nat, stop: char -> bool, ghost end: nat) returns (t: nat)
    requires Text(buf, s, end)
    ensures s <= t <= end && t == s + |Until(buf[s..end], stop)|
    ensures buf[t..end] == From(buf[s..end], stop)
  {
    t := s;
    while buf[t] != NUL && !stop(buf[t])
      invariant s <= t <= end
      invariant |Until(buf[s..end], stop)| == t - s + |Until(buf[t..end], stop)|
      decreases end - t
    {
      assert buf[t..end][1..] == buf[t + 1..end];
      t := t + 1;
    }
    assert t == end || stop(buf[t..end][0]);
  }

  /** Cuts a string off at s and steps over the cut, unless the text ends there. */
  method CutHere(buf: array<char>, s: nat, ghost end: nat) returns (t: nat)
    requires Text(buf, s, end)
    modifies buf
    ensures Text(buf, t, end) && s <= t && buf[s] == NUL
    ensures buf[..s] == old(buf[..s]) && buf[s + 1..] == old(buf[s + 1..])
    ensures buf[t..end] == Skip(old(buf[s..end]))
  {
    t := s;
    if buf[t] != NUL {
      buf[t] := NUL;
      t := t + 1;
      assert buf[t..end] == old(buf[t..end]);
    }
  }

  /** Cuts off the string that runs from s to the first stop character. */
  method CutToken(buf: array<char>, s: nat, stop: char -> bool, ghost end: nat) returns (t: nat)
    requires Text(buf, s, end)
    modifies buf
    ensures s <= t && Text(buf, t, end)
    ensures buf[..s] == old(buf[..s]) && buf[end..] == old(buf[end..])
    ensures Cut(buf[..], s, Until(old(buf[s..end]), stop), t)
    ensures buf[t..end] == Skip(From(old(buf[s..end]), stop))
  {
    hide Until, From, Skip;
    ghost var token := Until(buf[s..end], stop);
    var e := Scan(buf, s, stop, end);
    assert buf[s..e] == token;
    ghost var b0 := buf[..];
    t := CutHere(buf, e, end);
    Prefixes(b0, buf[..], s, e);
  }

  lemma Prefixes(b: seq<char>, b': seq<char>, s: nat, e: nat)
    requires s <= e < |b| == |b'| && b'[..e] == b[..e]
    ensures b'[..s] == b[..s] && b'[s..e] == b[s..e]
  {
    assert b'[..s] == b'[..e][..s] && b[..s] == b[..e][..s];
    assert b'[s..e] == b'[..e][s..] && b[s..e] == b[..e][s..];
  }

  /** One round of the attribute loop, from the first character of a name. */
  method ParseAttr(buf: array<char>, start: nat, ghost end: nat) returns (found: bool, value: nat, s: nat)
    requires Text(buf, start, end)
    modifies buf
    ensures buf[..start] == old(buf[..start]) && buf[end..] == old(buf[end..])
    ensures found <==> OneAttr(old(buf[start..end])).Pair?
    ensures found ==>
              var r := OneAttr(old(buf[start..end]));
              && start < s && Text(buf, s, end) && buf[s..end] == r.rest
              && Cut(buf[..], start, r.attr.name, s) && Cut(buf[..], value, r.attr.value, s)
  {
    hide Until, From, Skip;
    ghost var k := buf[start..end];
    s := CutToken(buf, start, NameEnd, end);
    ghost var b1, s1 := buf[..], s;
    var q := Scan(buf, s, IsQuote, end);
    assert b1[q..end] == From(b1[s1..end], IsQuote);
    found, value := false, s;
    if buf[q] == NUL {
      assert q == end;
      return;
    }
    var quote := buf[q];
    value := q + 1;
    assert b1[q..end][1..] == b1[value..end];
    s := CutToken(buf, value, Is(quote), end);
    found := true;
    Prefixes(b1, buf[..], s1, value);
    CutStays(b1, buf[..], start, Until(k, NameEnd), s1, s);
    Prefixes(b1, buf[..], start, value);
  }

  /** Stands for the null pointer that ends the attribute array. */
  const NO_POSITION := -1

  /** The slots hold the positions of these names and values, each cut off by limit. */
  ghost predicate Stored(b: seq<char>, slots: seq<int>, pairs: seq<Attr>, limit: nat) {
    && 2 * |pairs| <= |slots|
    && forall i | 0 <= i < |pairs| ::
         && slots[2 * i] >= 0 && slots[2 * i + 1] >= 0
         && Cut(b, slots[2 * i], pairs[i].name, limit) && Cut(b, slots[2 * i + 1], pairs[i].value, limit)
  }

  lemma StoredStays(b: seq<char>, b': seq<char>, slots: seq<int>, slots': seq<int>, pairs: seq<Attr>,
                    limit: nat, limit': nat)
    requires Stored(b, slots, pairs, limit) && limit <= limit' < |b'| && |b| == |b'|
    requires b'[..limit] == b[..limit] && (b[limit] == NUL ==> b'[limit] == NUL)
    requires 2 * |pairs| <= |slots'| && forall i | 0 <= i < 2 * |pairs| :: slots'[i] == slots[i]
    ensures Stored(b', slots', pairs, limit')
  {
    forall i | 0 <= i < |pairs|
      ensures slots'[2 * i] >= 0 && slots'[2 * i + 1] >= 0
      ensures Cut(b', slots'[2 * i], pairs[i].name, limit') && Cut(b', slots'[2 * i + 1], pairs[i].value, limit')
    {
      CutStays(b, b', slots[2 * i], pairs[i].name, limit, limit');
      CutStays(b, b', slots[2 * i + 1], pairs[i].value, limit, limit');
    }
  }

  lemma StoredPush(b: seq<char>, slots: seq<int>, slots': seq<int>, pairs: seq<Attr>, pair: Attr, name: nat, value: nat,
                   limit: nat, limit': nat)
    requires Stored(b, slots, pairs, limit) && limit <= limit' < |b|
    requires 2 * |pairs| + 1 < |slots| && slots' == slots[2 * |pairs| := name][2 * |pairs| + 1 := value]
    requires Cut(b, name, pair.name, limit') && Cut(b, value, pair.value, limit')
    ensures Stored(b, slots', pairs + [pair], limit')
  {
    StoredStays(b, b, slots, slots', pairs, limit, limit');
  }

  /** A string as a callback reads it. */
  method ReadString(buf: array<char>, p: nat, ghost v: string, ghost limit: nat) returns (s: string)
    requires Cut(buf[..], p, v, limit)
    ensures s == v
  {
    CutReads(buf[..], p, v, limit);
    assert buf[p..] == buf[..][p..];
    s := CString(buf[p..]);
  }

  /** What a callback sees of the attributes: names and values up to the null pointer. */
  method CollectAttribs(buf: array<char>, attr: array<int>, ghost pairs: seq<Attr>, ghost limit: nat)
    returns (attrs: seq<Attr>)
    requires Stored(buf[..], attr[..], pairs, limit)
    requires 2 * |pairs| < attr.Length && attr[2 * |pairs|] == NO_POSITION
    ensures attrs == pairs
  {
    hide Cut;
    attrs := [];
    var i := 0;
    while attr[i] != NO_POSITION
      invariant i == 2 * |attrs| <= 2 * |pairs| && attrs == pairs[..|attrs|]
      decreases 2 * |pairs| - i
    {
      ghost var n := |attrs|;
      assert attr[..][2 * n] == attr[i] && attr[..][2 * n + 1] == attr[i + 1];
      var name := ReadString(buf, attr[i], pairs[n].name, limit);
      var value := ReadString(buf, attr[i + 1], pairs[n].value, limit);
      attrs := attrs + [Attr(name, value)];
      i := i + 2;
    }
  }

  datatype Outcome = Stops | Slash | Found

  /** One round of the attribute loop: nothing more to read, a slash, or an attribute. */
  method NextAttr(buf: array<char>, start: nat, ghost end: nat, ghost n: nat)
    returns (outcome: Outcome, name: nat, value: nat, s: nat, ghost pair: Attr)
    requires Text(buf, start, end) && n < MAX_PAIRS
    modifies buf
    ensures buf[..start] == old(buf[..start]) && buf[end..] == old(buf[end..])
    ensures outcome.Stops? ==> Attribs(old(buf[start..end]), n) == ([], false)
    ensures outcome.Slash? ==> Attribs(old(buf[start..end]), n) == ([], true)
    ensures outcome.Found? ==>
              && start < s <= end && Text(buf, s, end)
              && Attribs(old(buf[start..end]), n)
                 == ([pair] + Attribs(buf[s..end], n + 1).0, Attribs(buf[s..end], n + 1).1)
              && Cut(buf[..], name, pair.name, s) && Cut(buf[..], value, pair.value, s)
  {
    hide OneAttr, Attribs, Until, From, Skip, Cut;
    AttribsUnfold(buf[start..end], n);
    value, pair := 0, Attr("", "");
    s := Scan(buf, start, NotSpace, end);
    name := s;
    if buf[s] == NUL {
      outcome := Stops;
    } else if buf[s] == '/' {
      outcome := Slash;
    } else {
      ghost var b, k := buf[..], buf[s..end];
      var found;
      found, value, s := ParseAttr(buf, s, end);
      Prefixes(b, buf[..], start, name);
      outcome := if found then Found else Stops;
      if found {
        pair := OneAttr(k).attr;
      }
    }
  }

  /** Reads one more attribute into the next two slots, if there is one. */
  method StoreNext(buf: array<char>, start: nat, attr: array<int>, nattr: nat, ghost end: nat, ghost pairs: seq<Attr>)
    returns (outcome: Outcome, s: nat, ghost pair: Attr)
    requires Text(buf, start, end) && |pairs| < MAX_PAIRS && nattr == 2 * |pairs| && attr.Length == MAX_ATTRIBS
    requires Stored(buf[..], attr[..], pairs, start)
    modifies buf, attr
    ensures buf[..start] == old(buf[..start]) && buf[end..] == old(buf[end..])
    ensures !outcome.Found? ==>
              && Stored(buf[..], attr[..], pairs, start)
              && Attribs(old(buf[start..end]), |pairs|) == ([], outcome.Slash?)
    ensures outcome.Found? ==>
              && start < s && Text(buf, s, end) && Stored(buf[..], attr[..], pairs + [pair], s)
              && Attribs(old(buf[start..end]), |pairs|)
                 == ([pair] + Attribs(buf[s..end], |pairs| + 1).0, Attribs(buf[s..end], |pairs| + 1).1)
  {
    hide Attribs, Cut, Stored;
    ghost var b := buf[..];
    var name, value;
    outcome, name, value, s, pair := NextAttr(buf, start, end, |pairs|);
    Prefixes(b, buf[..], start, start);
    StoredStays(b, buf[..], attr[..], attr[..], pairs, start, start);
    if outcome.Found? {
      ghost var slots := attr[..];
      attr[nattr], attr[nattr + 1] := name, value;
      StoredPush(buf[..], slots, attr[..], pairs, pair, name, value, start, s);
    }
  }

  /** The attribute loop.  It fills at most 254 of the 256 slots. */
  method ParseAttribs(buf: array<char>, start: nat, attr: array<int>, ghost end: nat)
    returns (nattr: nat, closed: bool, ghost limit: nat)
    requires Text(buf, start, end) && attr.Length == MAX_ATTRIBS
    modifies buf, attr
    ensures buf[..start] == old(buf[..start]) && buf[end..] == old(buf[end..])
    ensures nattr <= MAX_ATTRIBS - 2
    ensures var (pairs, slash) := Attribs(old(buf[start..end]), 0);
            nattr == 2 * |pairs| && closed == slash && limit >= start && Stored(buf[..], attr[..], pairs, limit)
  {
    hide Attribs, Cut;
    nattr, closed := 0, false;
    var s := start;
    limit := s;
    ghost var pairs: seq<Attr> := [];
    ghost var all := Attribs(buf[start..end], 0);
    assert [] + all.0 == all.0;
    while buf[s] != NUL && nattr < MAX_ATTRIBS - 3
      invariant start <= s && Text(buf, s, end) && limit == s && !closed
      invariant buf[..start] == old(buf[..start]) && buf[end..] == old(buf[end..])
      invariant nattr == 2 * |pairs| <= MAX_ATTRIBS - 2
      invariant Stored(buf[..], attr[..], pairs, limit)
      invariant var rest := Attribs(buf[s..end], |pairs|); all == (pairs + rest.0, rest.1)
      decreases end - s
    {
      ghost var b, before := buf[..], s;
      var outcome, next, pair := StoreNext(buf, s, attr, nattr, end, pairs);
      Prefixes(b, buf[..], start, before);
      if !outcome.Found? {
        assert pairs + [] == pairs;
        closed := outcome.Slash?;
        return;
      }
      s := next;
      ghost var rest := Attribs(buf[s..end], |pairs| + 1).0;
      assert pairs + ([pair] + rest) == (pairs + [pair]) + rest;
      pairs := pairs + [pair];
      nattr := nattr + 2;
      limit := s;
    }
    AttribsAtEnd(buf[s..end], |pairs|);
    assert pairs + [] == pairs;
  }

  lemma AttribsAtEnd(s: string, n: nat)
    ensures s == "" || n >= MAX_PAIRS ==> Attribs(s, n) == ([], false)
  {
  }

  /** The attributes as the start callback receives them, and whether an end callback follows. */
  method ReadAttribs(buf: array<char>, start: nat, ghost end: nat) returns (attrs: seq<Attr>, closed: bool)
    requires Text(buf, start, end)
    modifies buf
    ensures buf[..start] == old(buf[..start]) && buf[end..] == old(buf[end..])
    ensures (attrs, closed) == Attribs(old(buf[start..end]), 0)
  {
    hide Attribs, Cut;
    var attr := new int[MAX_ATTRIBS];
    ghost var (pairs, slash) := Attribs(buf[start..end], 0);
    var nattr: nat;
    ghost var limit: nat;
    nattr, closed, limit := ParseAttribs(buf, start, attr, end);
    ghost var slots := attr[..];
    attr[nattr], attr[nattr + 1] := NO_POSITION, NO_POSITION;
    assert forall i | 0 <= i < |pairs| :: attr[..][2 * i] == slots[2 * i] && attr[..][2 * i + 1] == slots[2 * i + 1];
    attrs := CollectAttribs(buf, attr, pairs, limit);
  }

  /** nsvg__parseElement on the text from start to its terminator; the result lists the callbacks made. */
  method ParseElement(buf: array<char>, start: nat, ghost end: nat) returns (events: seq<Event>)
    requires Text(buf, start, end)
    modifies buf
    ensures buf[..start] == old(buf[..start]) && buf[end..] == old(buf[end..])
    ensures events == Element(old(buf[start..end]))
  {
    hide Named, Until, From, Cut;
    events := [];
    var s := Scan(buf, start, NotSpace, end);
    var isEnd := false;
    if buf[s] == '/' {
      assert buf[s..end][1..] == buf[s + 1..end];
      s, isEnd := s + 1, true;
    }
    if buf[s] == NUL || buf[s] == '?' || buf[s] == '!' { return; }
    ghost var b := buf[..];
    events := ParseNamed(buf, s, isEnd, end);
    Prefixes(b, buf[..], start, s);
  }

  method ParseNamed(buf: array<char>, start: nat, isEnd: bool, ghost end: nat) returns (events: seq<Event>)
    requires Text(buf, start, end)
    modifies buf
    ensures buf[..start] == old(buf[..start]) && buf[end..] == old(buf[end..])
    ensures events == Named(old(buf[start..end]), isEnd)
  {
    hide Attribs, Until, From, Skip, Cut;
    ghost var name := Until(buf[start..end], IsSpace);
    var s := CutToken(buf, start, IsSpace, end);
    if isEnd {
      var n := ReadString(buf, start, name, s);
      events := [EndTag(n)];
      return;
    }
    ghost var b := buf[..];
    var attrs, closed := ReadAttribs(buf, s, end);
    Prefixes(b, buf[..], start, s);
    CutStays(b, buf[..], start, name, s, s);
    var n := ReadString(buf, start, name, s);
    events := [StartTag(n, attrs)];
    if closed {
      events := events + [EndTag(n)];
    }
  }

  /** nsvg__parseXML: cuts the input at the brackets and hands the text of each tag to the element parser. */
  method ParseXML(buf: array<char>, ghost end: nat) returns (events: seq<Event>)
    requires Text(buf, 0, end)
    modifies buf
    ensures events == Content(old(buf[..end]))
  {
    hide Element, Until, Content, Tag;
    events := [];
    var s, mark := 0, 0;
    var inTag := false;
    ghost var all := Content(buf[..end]);
    assert buf[..end] == buf[0..end] && [] + all == all;
    while buf[s] != NUL
      invariant mark <= s && Text(buf, mark, end) && s <= end
      invariant !inTag ==> events + Content(buf[s..end]) == all
      invariant inTag ==> events + Tag(buf[mark..end]) == all && forall c | c in buf[mark..s] :: c != '>'
      decreases end - s
    {
      assert buf[s..end][1..] == buf[s + 1..end];
      if buf[s] == '<' && !inTag {
        ContentStops(buf[s..end]);
        ghost var rest := buf[s + 1..end];
        buf[s] := NUL;
        s := s + 1;
        assert buf[s..end] == rest;
        mark, inTag := s, true;
      } else if buf[s] == '>' && inTag {
        var more := CloseTag(buf, mark, s, end);
        s := s + 1;
        assert (events + more) + Content(buf[s..end]) == events + (more + Content(buf[s..end]));
        events := events + more;
        mark, inTag := s, false;
      } else {
        if !inTag {
          ContentSkips(buf[s..end]);
        } else {
          assert buf[mark..s + 1] == buf[mark..s] + [buf[s]];
        }
        s := s + 1;
      }
    }
    EndOfInput(buf[s..end], buf[mark..end]);
  }

  /** At the bracket that ends a tag: cut the tag off and parse it. */
  method CloseTag(buf: array<char>, mark: nat, s: nat, ghost end: nat) returns (events: seq<Event>)
    requires Text(buf, mark, end) && mark <= s < end && buf[s] == '>' && forall c | c in buf[mark..s] :: c != '>'
    modifies buf
    ensures Text(buf, s + 1, end)
    ensures Tag(old(buf[mark..end])) == events + Content(buf[s + 1..end])
  {
    hide Element, Until, Content, Tag;
    ghost var tag := buf[mark..end];
    assert tag[..s - mark] == buf[mark..s] && tag[s - mark + 1..] == buf[s + 1..end];
    TagStops(tag, s - mark);
    buf[s] := NUL;
    assert buf[mark..s] == tag[..s - mark];
    ghost var b := buf[..];
    events := ParseElement(buf, mark, s);
    Suffixes(b, buf[..], s, end);
  }

  lemma Suffixes(b: seq<char>, b': seq<char>, s: nat, end: nat)
    requires s < end < |b| == |b'| && b'[s..] == b[s..]
    ensures b'[s + 1..end] == b[s + 1..end] && forall i | s <= i < |b| :: b'[i] == b[i]
  {
    assert forall i | s <= i < |b| :: b'[i] == b'[s..][i - s] && b[i] == b[s..][i - s];
  }
}
