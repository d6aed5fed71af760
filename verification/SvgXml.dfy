/** The XML tokenizer as a function of its input, and what it makes of a printed document. */
module SvgXml {
  import opened Scanning

  datatype Event = StartTag(name: string, attrs: seq<Attr>) | EndTag(name: string)

  datatype Attr = Attr(name: string, value: string)

  /** The attribute array has 256 slots: two per attribute and a two-slot terminator. */
  const MAX_ATTRIBS := 256

  /** Attributes beyond this many are not read, and neither is a slash after them. */
  const MAX_PAIRS := 127

  function NotSpace(c: char): bool { !IsSpace(c) }

  function NameEnd(c: char): bool { IsSpace(c) || c == '=' }

  function IsQuote(c: char): bool { c == '"' || c == '\'' }

  // ---------------------------------------------------------------- one element

  datatype Scanned = NoValue | Pair(attr: Attr, rest: string)

  /** One attribute: a name up to a blank or '=', anything up to a quote, and a value up to the same quote. */
  function OneAttr(k: string): (r: Scanned)
    ensures r.Pair? ==> |r.rest| < |k|
  {
    var name := Until(k, NameEnd);
    var q := From(Skip(From(k, NameEnd)), IsQuote);
    if q == "" then NoValue
    else Pair(Attr(name, Until(q[1..], Is(q[0]))), Skip(From(q[1..], Is(q[0]))))
  }

  /** The attributes from here on, of which n are already read, and whether a slash ended them. */
  function Attribs(s: string, n: nat): (seq<Attr>, bool)
    decreases |s|
  {
    var k := From(s, NotSpace);
    if n >= MAX_PAIRS || k == "" then ([], false)
    else if k[0] == '/' then ([], true)
    else match OneAttr(k)
         case NoValue => ([], false)
         case Pair(attr, rest) =>
           var (attrs, closed) := Attribs(rest, n + 1);
           ([attr] + attrs, closed)
  }

  /** nsvg__parseElement on the text between '<' and '>'. */
  function Element(text: string): seq<Event> {
    var s := From(text, NotSpace);
    var end := s != "" && s[0] == '/';
    var t := if end then s[1..] else s;
    if t == "" || t[0] == '?' || t[0] == '!' then [] else Named(t, end)
  }

  function Named(t: string, end: bool): seq<Event> {
    var name := Until(t, IsSpace);
    if end then [EndTag(name)]
    else
      var (attrs, closed) := Attribs(Skip(From(t, IsSpace)), 0);
      [StartTag(name, attrs)] + (if closed then [EndTag(name)] else [])
  }

  // ---------------------------------------------------------------- the document

  /** nsvg__parseXML outside and inside a tag. */
  function Content(s: string): seq<Event>
    decreases |s|, 1
  {
    var t := From(s, Is('<'));
    if t == "" then [] else Tag(t[1..])
  }

  function Tag(s: string): seq<Event>
    decreases |s|, 2
  {
    var t := From(s, Is('>'));
    if t == "" then [] else Element(Until(s, Is('>'))) + Content(t[1..])
  }

  /** Comments, declarations and processing instructions make no event; they end at the first closing bracket, even one
      inside a comment. */
  lemma NoEvent(blanks: string, mark: char, body: string, rest: string)
    requires (mark == '!' || mark == '?') && (forall c | c in blanks :: IsSpace(c)) && '>' !in body
    ensures Content("<" + (blanks + ([mark] + (body + (">" + rest))))) == Content(rest)
  {
    hide Until, From, Content, Tag, Element;
    var text := blanks + ([mark] + body);
    var s := text + (">" + rest);
    assert "<" + (blanks + ([mark] + (body + (">" + rest)))) == "<" + s;
    ContentStops("<" + s);
    assert ("<" + s)[1..] == s && s[..|text|] == text && s[|text| + 1..] == rest;
    TagStops(s, |text|);
    MarkedText(blanks, mark, body);
    assert [] + Content(rest) == Content(rest);
  }

  lemma MarkedText(blanks: string, mark: char, body: string)
    requires (mark == '!' || mark == '?') && (forall c | c in blanks :: IsSpace(c))
    ensures Element(blanks + ([mark] + body)) == []
  {
    hide Until, From, Named;
    UntilStops(blanks, [mark] + body, NotSpace);
  }

  /** Attributes in any layout: blanks before the name, anything but quotes from its end to the value, either quote. */
  lemma AnyQuoteReads(blanks: string, name: string, sign: string, quote: char, value: string, rest: string, n: nat)
    requires (forall c | c in blanks :: IsSpace(c)) && n < 127
    requires name != "" && name[0] != '/' && forall c | c in name :: !IsSpace(c) && c != '='
    requires sign != "" && (IsSpace(sign[0]) || sign[0] == '=') && forall c | c in sign :: c != '"' && c != '\''
    requires (quote == '"' || quote == '\'') && quote !in value
    ensures var (attrs, closed) := Attribs(rest, n + 1);
            Attribs(blanks + (name + (sign + ([quote] + (value + ([quote] + rest))))), n)
            == ([Attr(name, value)] + attrs, closed)
  {
    hide Until, From, Attribs;
    var tail := value + ([quote] + rest);
    var k := name + (sign + ([quote] + tail));
    UntilStops(blanks, k, NotSpace);
    AttribsUnfold(blanks + k, n);
    UntilStops(name, sign + ([quote] + tail), NameEnd);
    assert Skip(sign + ([quote] + tail)) == sign[1..] + ([quote] + tail);
    assert forall c | c in sign[1..] :: c in sign;
    UntilStops(sign[1..], [quote] + tail, IsQuote);
    UntilStops(value, [quote] + rest, Is(quote));
    assert ([quote] + tail)[1..] == tail && Skip([quote] + rest) == rest;
    assert OneAttr(k) == Pair(Attr(name, value), rest);
  }

  /** Without a quote in what is left of the tag there are no more attributes, and no slash is seen. */
  lemma UnquotedStops(s: string, n: nat)
    requires (forall c | c in s :: c != '"' && c != '\'') && n < 127
    requires From(s, NotSpace) != "" ==> From(s, NotSpace)[0] != '/'
    ensures Attribs(s, n) == ([], false)
  {
    hide Until, From, Attribs, OneAttr;
    AttribsUnfold(s, n);
    FromIn(s, NotSpace);
    NoQuote(From(s, NotSpace));
  }

  lemma FromIn(s: string, stop: char -> bool)
    ensures forall c | c in From(s, stop) :: c in s
    ensures forall c | c in Skip(s) :: c in s
  {
  }

  lemma HeadIsIn(s: string)
    ensures s != "" ==> s[0] in s
  {
  }

  lemma NoQuote(k: string)
    requires forall c | c in k :: c != '"' && c != '\''
    ensures OneAttr(k) == NoValue
  {
    hide Until, From, Skip;
    var after := Skip(From(k, NameEnd));
    FromIn(k, NameEnd);
    FromIn(From(k, NameEnd), NameEnd);
    FromIn(after, IsQuote);
    Splits(after, IsQuote);
    HeadIsIn(From(after, IsQuote));
  }

  lemma AttribsUnfold(s: string, n: nat)
    requires n < MAX_PAIRS
    ensures var k := From(s, NotSpace);
            Attribs(s, n) == if k == "" then ([], false)
                             else if k[0] == '/' then ([], true)
                             else match OneAttr(k)
                                  case NoValue => ([], false)
                                  case Pair(attr, rest) =>
                                    ([attr] + Attribs(rest, n + 1).0, Attribs(rest, n + 1).1)
  {
  }

  lemma ContentStops(s: string)
    requires s != "" && s[0] == '<'
    ensures Content(s) == Tag(s[1..])
  {
  }

  lemma ContentSkips(s: string)
    requires s != "" && s[0] != '<'
    ensures Content(s) == Content(s[1..])
  {
  }

  lemma TagStops(s: string, n: nat)
    requires n < |s| && s[n] == '>' && forall c | c in s[..n] :: c != '>'
    ensures Tag(s) == Element(s[..n]) + Content(s[n + 1..])
  {
    assert s == s[..n] + s[n..];
    UntilStops(s[..n], s[n..], Is('>'));
    assert s[n..][1..] == s[n + 1..];
  }

  lemma EndOfInput(content: string, tag: string)
    ensures content == "" ==> Content(content) == []
    ensures (forall c | c in tag :: c != '>') ==> Tag(tag) == []
  {
    if forall c | c in tag :: c != '>' {
      UntilStops(tag, "", Is('>'));
      assert tag + "" == tag;
    }
  }

  // ---------------------------------------------------------------- printing

  datatype Markup =
    | Open(name: string, attrs: seq<Attr>)
    | Empty(name: string, attrs: seq<Attr>)
    | Close(name: string)

  predicate NameOk(name: string) {
    && name != "" && name[0] != '/' && name[0] != '?' && name[0] != '!'
    && forall c | c in name :: !IsSpace(c) && c != '>'
  }

  predicate AttrOk(a: Attr) {
    && (a.name != "" ==> a.name[0] != '/')
    && (forall c | c in a.name :: !IsSpace(c) && c != '=' && c != '>')
    && (forall c | c in a.value :: c != '"' && c != '>')
  }

  predicate MarkupOk(m: Markup) {
    NameOk(m.name) && (!m.Close? ==> forall a | a in m.attrs :: AttrOk(a))
  }

  function PrintAttr(a: Attr): string {
    " " + a.name + "=\"" + a.value + "\""
  }

  function PrintAttrs(attrs: seq<Attr>): string {
    if attrs == [] then "" else PrintAttr(attrs[0]) + PrintAttrs(attrs[1..])
  }

  /** The text between the angle brackets. */
  function Body(m: Markup): string {
    match m
    case Open(name, attrs) => name + PrintAttrs(attrs)
    case Empty(name, attrs) => name + PrintAttrs(attrs) + " /"
    case Close(name) => "/" + name
  }

  /** What a tag means to the callbacks. */
  function Meaning(m: Markup): seq<Event> {
    match m
    case Open(name, attrs) => [StartTag(name, attrs)]
    case Empty(name, attrs) => [StartTag(name, attrs), EndTag(name)]
    case Close(name) => [EndTag(name)]
  }

  /** A tag with the text in front of it. */
  datatype Piece = Piece(text: string, markup: Markup)

  predicate PieceOk(p: Piece) {
    MarkupOk(p.markup) && forall c | c in p.text :: c != '<'
  }

  function Print(doc: seq<Piece>): string {
    if doc == [] then "" else doc[0].text + "<" + Body(doc[0].markup) + ">" + Print(doc[1..])
  }

  function Meanings(doc: seq<Piece>): seq<Event> {
    if doc == [] then [] else Meaning(doc[0].markup) + Meanings(doc[1..])
  }

  function Take(attrs: seq<Attr>, n: nat): seq<Attr> {
    if |attrs| <= n then attrs else attrs[..n]
  }

  // ---------------------------------------------------------------- reading back

  lemma ReadOne(a: Attr, rest: string)
    requires AttrOk(a)
    ensures OneAttr(a.name + ("=" + ("\"" + (a.value + ("\"" + rest))))) == Pair(a, rest)
  {
    var tail := "\"" + rest;
    var quoted := a.value + tail;
    var valued := "\"" + quoted;
    var equated := "=" + valued;
    UntilStops(a.name, equated, NameEnd);
    assert Skip(equated) == valued;
    UntilStops("", valued, IsQuote);
    assert "" + valued == valued && valued[1..] == quoted && valued[0] == '"';
    UntilStops(a.value, tail, Is('"'));
    assert Skip(tail) == rest;
  }

  lemma ReadAttr(a: Attr, rest: string, n: nat)
    requires AttrOk(a) && n < MAX_PAIRS
    ensures var (attrs, closed) := Attribs(rest, n + 1);
            Attribs(PrintAttr(a) + rest, n) == ([a] + attrs, closed)
  {
    var k := a.name + ("=" + ("\"" + (a.value + ("\"" + rest))));
    assert PrintAttr(a) + rest == " " + k;
    UntilStops(" ", k, NotSpace);
    ReadOne(a, rest);
  }

  /** What may follow the last attribute: nothing, or the slash of an empty element, after a blank or not. */
  predicate IsEnding(ending: string) { ending == "" || ending == " /" || ending == "/" }

  lemma ReadEnding(ending: string, n: nat)
    requires IsEnding(ending)
    ensures Attribs(ending, n) == ([], ending != "" && n < MAX_PAIRS)
  {
    if ending == " /" {
      UntilStops(" ", "/", NotSpace);
      assert " " + "/" == " /";
    } else if ending == "/" {
      UntilStops("", "/", NotSpace);
      assert "" + "/" == "/";
    }
  }

  lemma ReadsNoMore(s: string, n: nat)
    requires n >= MAX_PAIRS
    ensures Attribs(s, n) == ([], false)
  {
  }

  lemma {:induction false} ReadAttrs(attrs: seq<Attr>, ending: string, n: nat)
    requires IsEnding(ending) && n <= MAX_PAIRS && forall a | a in attrs :: AttrOk(a)
    ensures Attribs(PrintAttrs(attrs) + ending, n)
         == (Take(attrs, MAX_PAIRS - n), ending != "" && n + |attrs| < MAX_PAIRS)
  {
    hide PrintAttr, Attribs, AttrOk;
    if attrs == [] {
      assert PrintAttrs(attrs) + ending == ending;
      ReadEnding(ending, n);
    } else if n < MAX_PAIRS {
      var rest := PrintAttrs(attrs[1..]) + ending;
      assert PrintAttrs(attrs) + ending == PrintAttr(attrs[0]) + rest;
      ReadAttr(attrs[0], rest, n);
      ReadAttrs(attrs[1..], ending, n + 1);
      assert [attrs[0]] + Take(attrs[1..], MAX_PAIRS - n - 1) == Take(attrs, MAX_PAIRS - n);
    } else {
      ReadsNoMore(PrintAttrs(attrs) + ending, n);
    }
  }

  lemma ReadName(name: string, rest: string)
    requires NameOk(name) && (rest == "" || IsSpace(rest[0]))
    ensures From(name + rest, NotSpace) == name + rest
    ensures Until(name + rest, IsSpace) == name && From(name + rest, IsSpace) == rest
  {
    UntilStops("", name + rest, NotSpace);
    assert "" + (name + rest) == name + rest;
    UntilStops(name, rest, IsSpace);
  }

  /** Reading attributes starts just after the blank that ends the name, or at the end. */
  lemma SkipBlank(s: string, n: nat)
    requires s == "" || s[0] == ' '
    ensures Attribs(Skip(s), n) == Attribs(s, n)
  {
    if s != "" {
      var k := From(s[1..], NotSpace);
      var blank := " " + Until(s[1..], NotSpace);
      assert s == blank + k;
      UntilStops(blank, k, NotSpace);
    }
  }

  /** A tag as read: at most 127 attributes, and the slash of an empty element only after fewer. */
  function ReadBack(m: Markup): seq<Event> {
    match m
    case Open(name, attrs) => [StartTag(name, Take(attrs, MAX_PAIRS))]
    case Empty(name, attrs) =>
      [StartTag(name, Take(attrs, MAX_PAIRS))] + (if |attrs| < MAX_PAIRS then [EndTag(name)] else [])
    case Close(name) => [EndTag(name)]
  }

  lemma ReadClose(name: string)
    requires NameOk(name)
    ensures Element("/" + name) == [EndTag(name)]
  {
    hide Attribs, Until, From;
    var s := "/" + name;
    UntilStops("", s, NotSpace);
    assert "" + s == s && s[1..] == name && name + "" == name;
    ReadName(name, "");
  }

  lemma ReadStart(name: string, attrs: seq<Attr>, ending: string)
    requires IsEnding(ending) && (attrs == [] ==> ending != "/")
    requires NameOk(name) && forall a | a in attrs :: AttrOk(a)
    ensures Element(name + (PrintAttrs(attrs) + ending))
         == [StartTag(name, Take(attrs, MAX_PAIRS))]
            + (if ending != "" && |attrs| < MAX_PAIRS then [EndTag(name)] else [])
  {
    hide Attribs, PrintAttrs, Take, Until, From, Element, Named, IsEnding, NameOk, AttrOk;
    var rest := PrintAttrs(attrs) + ending;
    StartsBlank(attrs, ending);
    NamedElement(name, rest);
    ReadAttrs(attrs, ending, 0);
  }

  /** A start tag whose name is followed by a blank or nothing. */
  lemma NamedElement(name: string, rest: string)
    requires NameOk(name) && (rest == "" || rest[0] == ' ')
    ensures var (attrs, closed) := Attribs(rest, 0);
            Element(name + rest) == [StartTag(name, attrs)] + (if closed then [EndTag(name)] else [])
  {
    hide Attribs, Until, From;
    assert (name + rest)[0] == name[0];
    ReadName(name, rest);
    SkipBlank(rest, 0);
  }

  lemma StartsBlank(attrs: seq<Attr>, ending: string)
    requires IsEnding(ending) && (attrs == [] ==> ending != "/")
    ensures var rest := PrintAttrs(attrs) + ending; rest == "" || rest[0] == ' '
  {
  }

  lemma ReadElement(m: Markup)
    requires MarkupOk(m)
    ensures Element(Body(m)) == ReadBack(m)
  {
    match m {
      case Open(name, attrs) =>
        assert Body(m) == name + (PrintAttrs(attrs) + "");
        ReadStart(name, attrs, "");
      case Empty(name, attrs) =>
        assert Body(m) == name + (PrintAttrs(attrs) + " /");
        ReadStart(name, attrs, " /");
      case Close(name) => ReadClose(name);
    }
  }

  predicate Fits(m: Markup) {
    match m
    case Open(_, attrs) => |attrs| <= 127
    case Empty(_, attrs) => |attrs| < 127
    case Close(_) => true
  }

  /** A tag survives printing and reading if and only if its attributes fit. */
  lemma ElementRoundTripIff(m: Markup)
    requires MarkupOk(m)
    ensures Element(Body(m)) == Meaning(m) <==> Fits(m)
  {
    ReadElement(m);
  }

  lemma BodyHasNoBracket(m: Markup)
    requires MarkupOk(m)
    ensures forall c | c in Body(m) :: c != '>'
  {
    if !m.Close? {
      AttrsHaveNoBracket(m.attrs);
    }
  }

  lemma {:induction false} AttrsHaveNoBracket(attrs: seq<Attr>)
    requires forall a | a in attrs :: AttrOk(a)
    ensures forall c | c in PrintAttrs(attrs) :: c != '>'
  {
    if attrs != [] {
      AttrsHaveNoBracket(attrs[1..]);
      var a := attrs[0];
      assert a in attrs;
      forall c | c in PrintAttr(a) ensures c != '>' {
        assert c in " " || c in a.name || c in "=\"" || c in a.value || c in "\"";
      }
    }
  }

  function ReadBacks(doc: seq<Piece>): seq<Event> {
    if doc == [] then [] else ReadBack(doc[0].markup) + ReadBacks(doc[1..])
  }

  lemma {:induction false} ReadDocument(doc: seq<Piece>)
    requires forall p | p in doc :: PieceOk(p)
    ensures Content(Print(doc)) == ReadBacks(doc)
  {
    if doc == [] {
      assert Print(doc) == "";
    } else {
      var p, tail := doc[0], Print(doc[1..]);
      var body := Body(p.markup);
      var inside := body + (">" + tail);
      assert p in doc;
      assert Print(doc) == p.text + ("<" + inside);
      UntilStops(p.text, "<" + inside, Is('<'));
      assert ("<" + inside)[1..] == inside;
      BodyHasNoBracket(p.markup);
      UntilStops(body, ">" + tail, Is('>'));
      assert (">" + tail)[1..] == tail;
      ReadElement(p.markup);
      ReadDocument(doc[1..]);
    }
  }

  /** A printed document produces exactly the events it stands for, provided every tag fits. */
  lemma {:induction false} DocumentRoundTrip(doc: seq<Piece>)
    requires forall p | p in doc :: PieceOk(p) && Fits(p.markup)
    ensures Content(Print(doc)) == Meanings(doc)
  {
    ReadDocument(doc);
    FittingReadBacks(doc);
  }

  lemma {:induction false} FittingReadBacks(doc: seq<Piece>)
    requires forall p | p in doc :: Fits(p.markup)
    ensures ReadBacks(doc) == Meanings(doc)
  {
    if doc != [] {
      assert doc[0] in doc;
      FittingReadBacks(doc[1..]);
    }
  }

  /** Without a blank before the slash an attribute-less empty element swallows it into its name and
      never ends. */
  lemma SlashJoinsName(name: string)
    requires NameOk(name)
    ensures Element(name + "/") == [StartTag(name + "/", [])]
  {
    hide Attribs, Until, From;
    var s := name + "/";
    assert s + "" == s;
    ReadEnding("", 0);
    ReadName(s, "");
  }

  /** A slash right after the last attribute, or after the name, ends the element if and only if there is an
      attribute in front of it and room for another. */
  lemma TightSlashEndsIff(name: string, attrs: seq<Attr>)
    requires NameOk(name) && forall a | a in attrs :: AttrOk(a)
    ensures Element(name + (PrintAttrs(attrs) + "/")) == [StartTag(name, attrs), EndTag(name)]
       <==> 0 < |attrs| < 127
  {
    hide Element;
    if attrs == [] {
      assert PrintAttrs(attrs) + "/" == "/";
      SlashJoinsName(name);
    } else {
      ReadStart(name, attrs, "/");
    }
  }
}
