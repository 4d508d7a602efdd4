// The template parser of src/common/mustache.hpp: one pass over the input that cuts it
// into texts, white space and tags and nests them by section, then a walk over the tree
// that checks the end of every section.

module MustacheParser {

  datatype Option<T> = None | Some(value: T)

  datatype TagType = Text | Variable | UnescapedVariable | SectionBegin | SectionEnd | SectionBeginInverted
                   | Comment | Partial | SetDelimiter

  datatype Tag = Tag(kind: TagType, name: string) {
    predicate IsSectionBegin() {
      kind == SectionBegin || kind == SectionBeginInverted
    }

    predicate IsSectionEnd() {
      kind == SectionEnd
    }
  }

  datatype Component = Component(text: string, tag: Tag, children: seq<Component>, position: nat)

  datatype Delimiters = Delimiters(begin: string, end: string)

  const DEFAULT := Delimiters("{{", "}}")

  datatype Error =
    | UnclosedTag(at: nat)
    | InvalidSetDelimiter(at: nat)
    | UnopenedSection(name: string, at: nat)
    | UnclosedSection(name: string, at: nat)

  // ----- Strings

  predicate IsSpace(c: char) {
    c == ' ' || c == '\t' || c == '\n' || c == '\r' || c == '\U{0b}' || c == '\U{0c}'
  }

  /** The characters with the codes 9 to 13, and the space. */
  lemma SpacesAre(c: char)
    ensures IsSpace(c) <==> 9 <= c as int <= 13 || c as int == 32
  {
  }

  function TrimFront(s: string): (t: string)
    ensures |t| <= |s| && (t != "" ==> !IsSpace(t[0]) && t[|t| - 1] == s[|s| - 1])
  {
    if s != "" && IsSpace(s[0]) then TrimFront(s[1..]) else s
  }

  function TrimBack(s: string): (t: string)
    ensures |t| <= |s| && (t != "" ==> !IsSpace(t[|t| - 1]) && t[0] == s[0])
  {
    if s != "" && IsSpace(s[|s| - 1]) then TrimBack(s[..|s| - 1]) else s
  }

  function Trim(s: string): (t: string)
    ensures t != "" ==> !IsSpace(t[0]) && !IsSpace(t[|t| - 1])
  {
    TrimBack(TrimFront(s))
  }

  /** Whether s stands in the input at position at. */
  predicate StandsAt(input: string, at: nat, s: string) {
    at + |s| <= |input| && input[at..at + |s|] == s
  }

  /** The first place from which s stands in the input, or -1. */
  function Find(input: string, s: string, from: nat): (r: int)
    ensures r == -1 || (from <= r && StandsAt(input, r, s))
    ensures forall i :: from <= i < (if r == -1 then |input| + 1 else r) ==> !StandsAt(input, i, s)
    decreases |input| - from
  {
    if from > |input| then -1 else if StandsAt(input, from, s) then from else Find(input, s, from + 1)
  }

  function FindNot(s: string, c: char, from: nat): (r: int)
    ensures r == -1 <==> forall i :: from <= i < |s| ==> s[i] == c
    ensures r != -1 ==> from <= r < |s| && s[r] != c
    decreases |s| - from
  {
    if from >= |s| then -1 else if s[from] != c then from else FindNot(s, c, from + 1)
  }

  // ----- Tags

  predicate IsSetDelimiterValid(delimiter: string) {
    forall i :: 0 <= i < |delimiter| ==> delimiter[i] != '=' && !IsSpace(delimiter[i])
  }

  /** In a trimmed text something other than spaces follows every space. */
  lemma SpaceIsInside(s: string, at: nat)
    requires at < |Trim(s)| && Trim(s)[at] == ' '
    ensures FindNot(Trim(s), ' ', at + 1) != -1
  {
    hide Trim;
    assert Trim(s)[|Trim(s)| - 1] != ' ';
  }

  /** The delimiters that "=begin end=" sets. */
  function ParseSetDelimiterTag(contents: string): (d: Option<Delimiters>)
    ensures d.Some? ==>
              d.value.begin != "" && d.value.end != "" &&
              IsSetDelimiterValid(d.value.begin) && IsSetDelimiterValid(d.value.end)
  {
    if |contents| < 5 || contents[|contents| - 1] != '=' then None
    else
      var inner := Trim(contents[1..|contents| - 1]);
      var spacepos := Find(inner, " ", 0);
      if spacepos == -1 then None
      else
        assert inner[spacepos] == ' ';
        var nonspace := (SpaceIsInside(contents[1..|contents| - 1], spacepos); FindNot(inner, ' ', spacepos + 1));
        var begin, end := inner[..spacepos], inner[nonspace..];
        if IsSetDelimiterValid(begin) && IsSetDelimiterValid(end) then Some(Delimiters(begin, end)) else None
  }

  function ParseTagContents(isUnescapedVar: bool, contents: string): Tag {
    if isUnescapedVar then Tag(UnescapedVariable, contents)
    else if contents == "" then Tag(Variable, "")
    else
      var kind := match contents[0]
        case '#' => SectionBegin
        case '^' => SectionBeginInverted
        case '/' => SectionEnd
        case '>' => Partial
        case '&' => UnescapedVariable
        case '!' => Comment
        case _ => Variable;
      Tag(kind, if kind == Variable then contents else Trim(contents[1..]))
  }

  datatype TagResult = Closed(comp: Component, next: nat, delimiters: Delimiters) | Unclosed | BadDelimiters

  /** The tag that begins at a start delimiter. */
  function TagAt(input: string, at: nat, d: Delimiters): (r: TagResult)
    requires d.begin != "" && StandsAt(input, at, d.begin)
    ensures r.Closed? ==>
              at < r.next <= |input| && r.delimiters.begin != "" && r.comp.children == [] && r.comp.tag.kind != Text
  {
    var contentsAt := at + |d.begin|;
    var unescaped := d == DEFAULT && at != |input| - 2 && input[contentsAt] == d.begin[0];
    var end := if unescaped then "}}}" else d.end;
    var from := if unescaped then contentsAt + 1 else contentsAt;
    var endAt := Find(input, end, from);
    if endAt == -1 then Unclosed
    else
      var contents := Trim(input[from..endAt]);
      if contents != "" && contents[0] == '=' then
        match ParseSetDelimiterTag(contents)
        case None => BadDelimiters
        case Some(chosen) => Closed(Component("", Tag(SetDelimiter, ""), [], at), endAt + |end|, chosen)
      else Closed(Component("", ParseTagContents(unescaped, contents), [], at), endAt + |end|, d)
  }

  // ----- Cutting the input

  function Word(text: string, at: nat): Component {
    Component(text, Tag(Text, ""), [], at)
  }

  /** The length of the white space that stands alone at a position, 0 for none. */
  function WhitespaceAt(input: string, at: nat): (n: nat)
    requires at < |input|
    ensures at + n <= |input|
  {
    if StandsAt(input, at, "\r\n") then 2
    else if input[at] == '\n' || input[at] == '\r' || input[at] == ' ' || input[at] == '\t' then 1
    else 0
  }

  function Pending(text: string, at: nat): seq<Component> {
    if text == "" then [] else [Word(text, at)]
  }

  datatype Lexed = Lexed(tokens: seq<Component>, error: Option<Error>)

  /** The texts, white spaces and tags from a position on, after those in front. */
  function Lex(input: string, at: nat, d: Delimiters, text: string, textAt: nat, front: seq<Component>): Lexed
    requires at <= |input| && d.begin != ""
    decreases |input| - at
  {
    if at == |input| then Lexed(front + Pending(text, textAt), None)
    else if StandsAt(input, at, d.begin) then
      var before := front + Pending(text, textAt);
      match TagAt(input, at, d)
      case Unclosed => Lexed(before, Some(UnclosedTag(at)))
      case BadDelimiters => Lexed(before, Some(InvalidSetDelimiter(at)))
      case Closed(comp, next, delimiters) => Lex(input, next, delimiters, "", 0, before + [comp])
    else
      var n := WhitespaceAt(input, at);
      if n > 0 then Lex(input, at + n, d, "", 0, front + Pending(text, textAt) + [Word(input[at..at + n], at)])
      else Lex(input, at + 1, d, text + [input[at]], if text == "" then at else textAt, front)
  }

  function Tokens(input: string): Lexed {
    Lex(input, 0, DEFAULT, "", 0, [])
  }

  lemma {:induction false} LexExtends(input: string, at: nat, d: Delimiters, text: string, textAt: nat,
                                      front: seq<Component>)
    requires at <= |input| && d.begin != ""
    ensures front <= Lex(input, at, d, text, textAt, front).tokens
    decreases |input| - at
  {
    hide WhitespaceAt, TagAt, Word;
    if at == |input| {
    } else if StandsAt(input, at, d.begin) {
      var r := TagAt(input, at, d);
      if r.Closed? {
        LexExtends(input, r.next, r.delimiters, "", 0, front + Pending(text, textAt) + [r.comp]);
      }
    } else {
      var n := WhitespaceAt(input, at);
      if n > 0 {
        LexExtends(input, at + n, d, "", 0, front + Pending(text, textAt) + [Word(input[at..at + n], at)]);
      } else {
        LexExtends(input, at + 1, d, text + [input[at]], if text == "" then at else textAt, front);
      }
    }
  }

  // ----- Nesting by section

  /** A section that is open, with what it holds so far; the first frame is the template itself. */
  datatype Frame = Frame(section: Component, children: seq<Component>)

  datatype Nested = Open(frames: seq<Frame>) | Unopened(end: Component)

  const ROOT := Component("", Tag(Text, ""), [], 0)

  function Top(frames: seq<Frame>): Frame
    requires frames != []
  {
    frames[|frames| - 1]
  }

  function Append(frames: seq<Frame>, comp: Component): (r: seq<Frame>)
    requires frames != []
    ensures |r| == |frames|
  {
    frames[|frames| - 1 := Frame(Top(frames).section, Top(frames).children + [comp])]
  }

  /** Takes one token; an end closes the innermost open section whatever its name. */
  function Nest(frames: seq<Frame>, t: Component): (r: Nested)
    requires frames != []
    ensures r.Open? ==> r.frames != []
  {
    if t.tag.IsSectionBegin() then Open(frames + [Frame(t, [])])
    else if !t.tag.IsSectionEnd() then Open(Append(frames, t))
    else if |frames| == 1 then Unopened(t)
    else Open(CloseTop(Append(frames, t)))
  }

  /** Puts the innermost section into the one around it. */
  function CloseTop(frames: seq<Frame>): (r: seq<Frame>)
    requires |frames| > 1
    ensures |r| == |frames| - 1
  {
    Append(frames[..|frames| - 1], Top(frames).section.(children := Top(frames).children))
  }

  function NestAll(tokens: seq<Component>): (r: Nested)
    ensures r.Open? ==> r.frames != []
  {
    if tokens == [] then Open([Frame(ROOT, [])])
    else
      var before := NestAll(tokens[..|tokens| - 1]);
      if before.Open? then Nest(before.frames, tokens[|tokens| - 1]) else before
  }

  /** The template when the input has ended: sections still open stay where they began. */
  function Collapse(frames: seq<Frame>): seq<Component>
    requires frames != []
    decreases |frames|
  {
    if |frames| == 1 then frames[0].children else Collapse(CloseTop(frames))
  }

  lemma NestOne(tokens: seq<Component>, t: Component)
    requires NestAll(tokens).Open?
    ensures NestAll(tokens + [t]) == Nest(NestAll(tokens).frames, t)
  {
    assert (tokens + [t])[..|tokens|] == tokens;
  }

  lemma {:induction false} NestSticks(tokens: seq<Component>, all: seq<Component>)
    requires tokens <= all && NestAll(tokens).Unopened?
    ensures NestAll(all) == NestAll(tokens)
  {
    if |all| > |tokens| {
      NestSticks(tokens, all[..|all| - 1]);
    } else {
      assert all == tokens;
    }
  }

  // ----- The check of the sections

  predicate EndsWithItsTag(comp: Component) {
    comp.children != [] && comp.children[|comp.children| - 1].tag.IsSectionEnd() &&
    comp.children[|comp.children| - 1].tag.name == comp.tag.name
  }

  /** The first section, outer ones first, that does not end with its own tag. */
  function FirstUnclosed(comps: seq<Component>): Option<Error> {
    if comps == [] then None
    else
      var here := UnclosedIn(comps[0]);
      if here.Some? then here else FirstUnclosed(comps[1..])
  }

  function UnclosedIn(comp: Component): Option<Error> {
    if !comp.tag.IsSectionBegin() then FirstUnclosed(comp.children)
    else if !EndsWithItsTag(comp) then Some(UnclosedSection(comp.tag.name, comp.position))
    else FirstUnclosed(comp.children[..|comp.children| - 1])
  }

  /** The template without the end tags that have served their purpose. */
  function Strip(comp: Component): Component {
    if comp.tag.IsSectionBegin() && comp.children != []
      then comp.(children := StripAll(comp.children[..|comp.children| - 1]))
    else comp.(children := StripAll(comp.children))
  }

  function StripAll(comps: seq<Component>): (r: seq<Component>)
    ensures |r| == |comps|
  {
    if comps == [] then [] else [Strip(comps[0])] + StripAll(comps[1..])
  }

  // ----- The whole parse

  datatype Parsed = Template(root: seq<Component>) | Failed(error: Error)

  function Result(input: string): Parsed {
    var lexed := Tokens(input);
    var nested := NestAll(lexed.tokens);
    if nested.Unopened? then Failed(UnopenedSection(nested.end.tag.name, nested.end.position))
    else if lexed.error.Some? then Failed(lexed.error.value)
    else
      var tree := Collapse(nested.frames);
      var unclosed := FirstUnclosed(tree);
      if unclosed.Some? then Failed(unclosed.value) else Template(StripAll(tree))
  }

  // ----- What the tokens are

  ghost predicate Flat(tokens: seq<Component>) {
    forall i :: 0 <= i < |tokens| ==> tokens[i].children == []
  }

  /** A stretch of the input with no white space, where no tag begins. */
  ghost predicate IsRun(input: string, from: nat, to: nat, d: Delimiters) {
    from < to <= |input| &&
    forall i :: from <= i < to ==> !StandsAt(input, i, d.begin) && WhitespaceAt(input, i) == 0
  }

  /** Where a stretch of text must end. */
  ghost predicate RunEnds(input: string, at: nat, d: Delimiters) {
    at <= |input| && (at < |input| ==> StandsAt(input, at, d.begin) || WhitespaceAt(input, at) > 0)
  }

  /** Whether t is a text or a white space that can be cut from the input at a position. */
  ghost predicate IsWordAt(input: string, at: nat, d: Delimiters, t: Component) {
    var end := at + |t.text|;
    && StandsAt(input, at, t.text) && t.text != "" && t == Word(t.text, at)
    && !StandsAt(input, at, d.begin)
    && (WhitespaceAt(input, at) == |t.text| || (IsRun(input, at, end, d) && RunEnds(input, end, d)))
  }

  /** Why the tokens end at a position: the input has ended or the tag there cannot be read. */
  ghost predicate IsEnd(input: string, at: nat, d: Delimiters, error: Option<Error>) {
    if at == |input| then error == None
    else
      && d.begin != "" && StandsAt(input, at, d.begin)
      && match TagAt(input, at, d)
         case Unclosed => error == Some(UnclosedTag(at))
         case BadDelimiters => error == Some(InvalidSetDelimiter(at))
         case Closed(_, _, _) => false
  }

  /** The tokens lie side by side from a position to the end or the error, each read with the delimiters then set. */
  ghost predicate Tile(input: string, at: nat, d: Delimiters, tokens: seq<Component>, error: Option<Error>)
    decreases |tokens|
  {
    if tokens == [] then IsEnd(input, at, d, error)
    else if tokens[0].tag.kind == Text then
      IsWordAt(input, at, d, tokens[0]) && Tile(input, at + |tokens[0].text|, d, tokens[1..], error)
    else
      && d.begin != "" && StandsAt(input, at, d.begin)
      && var r := TagAt(input, at, d);
         r.Closed? && r.comp == tokens[0] && Tile(input, r.next, r.delimiters, tokens[1..], error)
  }

  lemma TileFront(input: string, at: nat, d: Delimiters, t: Component, rest: seq<Component>, error: Option<Error>)
    requires t.tag.kind == Text && IsWordAt(input, at, d, t) && Tile(input, at + |t.text|, d, rest, error)
    ensures Tile(input, at, d, [t] + rest, error)
  {
    hide IsWordAt;
    assert ([t] + rest)[1..] == rest;
  }

  ghost predicate Reading(input: string, at: nat, d: Delimiters, text: string, textAt: nat) {
    at <= |input| &&
    (text != "" ==> textAt + |text| == at && StandsAt(input, textAt, text) && IsRun(input, textAt, at, d))
  }

  lemma ReadingMore(input: string, at: nat, d: Delimiters, text: string, textAt: nat)
    requires at < |input| && Reading(input, at, d, text, textAt)
    requires !StandsAt(input, at, d.begin) && WhitespaceAt(input, at) == 0
    ensures Reading(input, at + 1, d, text + [input[at]], if text == "" then at else textAt)
  {
    hide WhitespaceAt;
    if text != "" {
      assert input[textAt..at + 1] == input[textAt..at] + [input[at]];
    }
  }

  /** The text before the tokens joins them. */
  lemma TilePending(input: string, at: nat, d: Delimiters, text: string, textAt: nat, rest: seq<Component>,
                    error: Option<Error>)
    requires Reading(input, at, d, text, textAt) && RunEnds(input, at, d) && Tile(input, at, d, rest, error)
    ensures Tile(input, if text == "" then at else textAt, d, Pending(text, textAt) + rest, error)
  {
    hide WhitespaceAt, Tile;
    if text == "" {
      assert [] + rest == rest;
    } else {
      TileFront(input, textAt, d, Word(text, textAt), rest, error);
    }
  }

  /** A tag that can be read joins the tokens after it. */
  lemma TileClosed(input: string, at: nat, d: Delimiters, r: TagResult, rest: seq<Component>, error: Option<Error>)
    requires d.begin != "" && at < |input| && StandsAt(input, at, d.begin) && TagAt(input, at, d) == r && r.Closed?
    requires Tile(input, r.next, r.delimiters, rest, error)
    ensures Tile(input, at, d, [r.comp] + rest, error)
  {
    hide Tile, IsEnd, TagAt, StandsAt;
    var tokens := [r.comp] + rest;
    assert tokens[1..] == rest;
    TileTag(input, at, d, tokens, error);
  }

  lemma TileEnd(input: string, at: nat, d: Delimiters)
    requires at == |input|
    ensures Tile(input, at, d, [], None) && RunEnds(input, at, d)
  {
  }

  lemma TileTag(input: string, at: nat, d: Delimiters, tokens: seq<Component>, error: Option<Error>)
    requires d.begin != "" && at < |input| && StandsAt(input, at, d.begin)
    requires var r := TagAt(input, at, d);
             if r.Closed? then tokens != [] && tokens[0] == r.comp &&
                Tile(input, r.next, r.delimiters, tokens[1..], error)
             else tokens == [] && IsEnd(input, at, d, error)
    ensures Tile(input, at, d, tokens, error)
  {
    hide TagAt, WhitespaceAt;
  }

  lemma NothingRead(input: string, at: nat, d: Delimiters)
    requires at <= |input|
    ensures Reading(input, at, d, "", 0)
  {
  }

  lemma {:induction false} LexTiles(input: string, at: nat, d: Delimiters, text: string, textAt: nat,
                                    front: seq<Component>)
    requires d.begin != "" && Reading(input, at, d, text, textAt) && at <= |input|
    ensures var r := Lex(input, at, d, text, textAt, front);
            front <= r.tokens && Tile(input, if text == "" then at else textAt, d, r.tokens[|front|..], r.error)
    decreases |input| - at
  {
    hide TagAt, WhitespaceAt, Reading, IsWordAt, Pending, Tile;
    var r, before := Lex(input, at, d, text, textAt, front), front + Pending(text, textAt);
    var n := if at < |input| then WhitespaceAt(input, at) else 0;
    if at < |input| && !StandsAt(input, at, d.begin) && n == 0 {
      ReadingMore(input, at, d, text, textAt);
      LexTiles(input, at + 1, d, text + [input[at]], if text == "" then at else textAt, front);
    } else {
      if at == |input| {
        assert r.tokens == before && r.tokens[|before|..] == [];
        TileEnd(input, at, d);
      } else if StandsAt(input, at, d.begin) {
        var tag := TagAt(input, at, d);
        if tag.Closed? {
          NothingRead(input, tag.next, tag.delimiters);
          LexTiles(input, tag.next, tag.delimiters, "", 0, before + [tag.comp]);
          assert r.tokens[|before|..] == [tag.comp] + r.tokens[|before| + 1..];
        } else {
          assert r.tokens == before && r.tokens[|before|..] == [];
        }
        TileTag(input, at, d, r.tokens[|before|..], r.error);
      } else {
        var word := Word(input[at..at + n], at);
        NothingRead(input, at + n, d);
        LexTiles(input, at + n, d, "", 0, before + [word]);
        WordAt(input, at, d);
        TileFront(input, at, d, word, r.tokens[|before| + 1..], r.error);
        assert r.tokens[|before|..] == [word] + r.tokens[|before| + 1..];
      }
      hide Lex, StandsAt;
      TileText(input, at, d, text, textAt, front, r.tokens, r.error);
    }
  }

  lemma TileText(input: string, at: nat, d: Delimiters, text: string, textAt: nat, front: seq<Component>,
                 tokens: seq<Component>, error: Option<Error>)
    requires Reading(input, at, d, text, textAt) && RunEnds(input, at, d)
    requires var before := front + Pending(text, textAt);
             before <= tokens && Tile(input, at, d, tokens[|before|..], error)
    ensures front <= tokens && Tile(input, if text == "" then at else textAt, d, tokens[|front|..], error)
  {
    hide Reading, RunEnds, Tile, Pending;
    var before := front + Pending(text, textAt);
    TilePending(input, at, d, text, textAt, tokens[|before|..], error);
    assert tokens[|front|..] == Pending(text, textAt) + tokens[|before|..];
  }

  lemma WordAt(input: string, at: nat, d: Delimiters)
    requires at < |input| && !StandsAt(input, at, d.begin) && WhitespaceAt(input, at) > 0
    ensures IsWordAt(input, at, d, Word(input[at..at + WhitespaceAt(input, at)], at))
  {
    hide WhitespaceAt;
  }

  /** Where a text ends is settled. */
  lemma SameWord(input: string, at: nat, d: Delimiters, s: Component, t: Component)
    requires IsWordAt(input, at, d, s) && IsWordAt(input, at, d, t)
    ensures s == t
  {
    hide WhitespaceAt;
    assert |s.text| == |t.text|;
  }

  lemma {:induction false} TileOnce(input: string, at: nat, d: Delimiters, s: seq<Component>, e: Option<Error>,
                                    t: seq<Component>, f: Option<Error>)
    requires Tile(input, at, d, s, e) && Tile(input, at, d, t, f)
    ensures s == t && e == f
    decreases |s|
  {
    hide TagAt, WhitespaceAt;
    if s != [] && t != [] {
      assert s == [s[0]] + s[1..] && t == [t[0]] + t[1..];
      if s[0].tag.kind == Text {
        SameWord(input, at, d, s[0], t[0]);
        TileOnce(input, at + |s[0].text|, d, s[1..], e, t[1..], f);
      } else {
        var r := TagAt(input, at, d);
        TileOnce(input, r.next, r.delimiters, s[1..], e, t[1..], f);
      }
    }
  }

  /** The tokens of the input are the one way to tile it. */
  lemma TokensTile(input: string, lexed: Lexed)
    ensures Tile(input, 0, DEFAULT, lexed.tokens, lexed.error) <==> lexed == Tokens(input)
  {
    hide Lex, Tile, TagAt, WhitespaceAt;
    LexTiles(input, 0, DEFAULT, "", 0, []);
    var r := Tokens(input);
    assert r.tokens[0..] == r.tokens;
    if Tile(input, 0, DEFAULT, lexed.tokens, lexed.error) {
      TileOnce(input, 0, DEFAULT, lexed.tokens, lexed.error, r.tokens, r.error);
    }
  }

  lemma {:induction false} TileFlat(input: string, at: nat, d: Delimiters, tokens: seq<Component>, error: Option<Error>)
    requires Tile(input, at, d, tokens, error)
    ensures Flat(tokens)
    decreases |tokens|
  {
    hide TagAt, WhitespaceAt;
    if tokens != [] {
      var r := if tokens[0].tag.kind == Text then Unclosed else TagAt(input, at, d);
      if r.Closed? {
        TileFlat(input, r.next, r.delimiters, tokens[1..], error);
      } else {
        TileFlat(input, at + |tokens[0].text|, d, tokens[1..], error);
      }
    }
  }

  lemma TokensFlat(input: string)
    ensures Flat(Tokens(input).tokens)
  {
    hide Lex, Tile;
    TokensTile(input, Tokens(input));
    TileFlat(input, 0, DEFAULT, Tokens(input).tokens, Tokens(input).error);
  }

  // ----- The tree holds the tokens in order

  function Preorder(comps: seq<Component>): seq<Component> {
    if comps == [] then [] else Preorder(comps[..|comps| - 1]) + PreorderOf(comps[|comps| - 1])
  }

  function PreorderOf(comp: Component): seq<Component> {
    [comp.(children := [])] + Preorder(comp.children)
  }

  function PreorderFrames(frames: seq<Frame>): seq<Component>
    requires frames != []
  {
    if |frames| == 1 then Preorder(frames[0].children)
    else
      PreorderFrames(frames[..|frames| - 1]) + [Top(frames).section.(children := [])] +
      Preorder(Top(frames).children)
  }

  lemma PreorderAppend(comps: seq<Component>, comp: Component)
    ensures Preorder(comps + [comp]) == Preorder(comps) + PreorderOf(comp)
  {
    assert (comps + [comp])[..|comps|] == comps;
  }

  lemma FramesAppend(frames: seq<Frame>, comp: Component)
    requires frames != []
    ensures PreorderFrames(Append(frames, comp)) == PreorderFrames(frames) + PreorderOf(comp)
  {
    PreorderAppend(Top(frames).children, comp);
    var n := |frames| - 1;
    assert Append(frames, comp)[..n] == frames[..n];
  }

  lemma FramesClose(frames: seq<Frame>)
    requires |frames| > 1
    ensures PreorderFrames(CloseTop(frames)) == PreorderFrames(frames)
  {
    var top := Top(frames);
    var comp := top.section.(children := top.children);
    FramesAppend(frames[..|frames| - 1], comp);
    assert comp.(children := []) == top.section.(children := []);
  }

  lemma FramesNest(frames: seq<Frame>, t: Component)
    requires frames != [] && t.children == [] && Nest(frames, t).Open?
    ensures PreorderFrames(Nest(frames, t).frames) == PreorderFrames(frames) + [t]
  {
    hide Preorder;
    assert t.(children := []) == t;
    FramesAppend(frames, t);
    Single(t);
    if t.tag.IsSectionBegin() {
      assert (frames + [Frame(t, [])])[..|frames|] == frames;
    } else if t.tag.IsSectionEnd() {
      FramesClose(Append(frames, t));
    }
  }

  lemma Single(t: Component)
    requires t.children == []
    ensures PreorderOf(t) == [t] && Preorder([]) == []
  {
  }

  lemma {:induction false} CollapseKeeps(frames: seq<Frame>)
    requires frames != []
    ensures Preorder(Collapse(frames)) == PreorderFrames(frames)
    decreases |frames|
  {
    hide Preorder;
    if |frames| > 1 {
      FramesClose(frames);
      CollapseKeeps(CloseTop(frames));
    }
  }

  lemma {:induction false} FramesHoldTokens(tokens: seq<Component>)
    requires Flat(tokens) && NestAll(tokens).Open?
    ensures PreorderFrames(NestAll(tokens).frames) == tokens
  {
    hide PreorderFrames, Nest;
    if tokens == [] {
      NothingNested();
    } else {
      var n := |tokens| - 1;
      FramesHoldTokens(tokens[..n]);
      FramesNest(NestAll(tokens[..n]).frames, tokens[n]);
    }
  }

  lemma NothingNested()
    ensures PreorderFrames([Frame(ROOT, [])]) == []
  {
  }

  /** Read in order, the template holds exactly the tokens of the input. */
  lemma TreeHoldsTokens(input: string)
    requires NestAll(Tokens(input).tokens).Open?
    ensures Preorder(Collapse(NestAll(Tokens(input).tokens).frames)) == Tokens(input).tokens
  {
    hide Lex, Preorder, NestAll, Collapse;
    TokensFlat(input);
    FramesHoldTokens(Tokens(input).tokens);
    CollapseKeeps(NestAll(Tokens(input).tokens).frames);
  }

  // ----- Proper nesting, with the names

  /** The names of the sections open after the tokens, or None when an end did not fit. */
  function Stack(tokens: seq<Component>): Option<seq<string>> {
    if tokens == [] then Some([]) else Fit(Stack(tokens[..|tokens| - 1]), tokens[|tokens| - 1].tag)
  }

  function Fit(open: Option<seq<string>>, tag: Tag): Option<seq<string>> {
    if open.None? then None
    else if tag.IsSectionBegin() then Some(open.value + [tag.name])
    else if !tag.IsSectionEnd() then open
    else if open.value != [] && open.value[|open.value| - 1] == tag.name then Some(open.value[..|open.value| - 1])
    else None
  }

  /** Every section that begins ends, inside the section it began in and with its own name. */
  predicate Balanced(tokens: seq<Component>) {
    Stack(tokens) == Some([])
  }

  // ----- Popping without looking at names, and checking later

  predicate AllClosed(comps: seq<Component>) {
    FirstUnclosed(comps) == None
  }

  lemma {:induction false} ClosedAppend(comps: seq<Component>, comp: Component)
    ensures AllClosed(comps + [comp]) <==> AllClosed(comps) && UnclosedIn(comp) == None
  {
    hide UnclosedIn;
    if comps == [] {
      assert [comp][1..] == [];
    } else {
      ClosedAppend(comps[1..], comp);
      assert (comps + [comp])[1..] == comps[1..] + [comp];
    }
  }

  function Names(frames: seq<Frame>): (names: seq<string>)
    requires frames != []
    ensures |names| == |frames| - 1
  {
    if |frames| == 1 then [] else Names(frames[..|frames| - 1]) + [Top(frames).section.tag.name]
  }

  function FramesClosed(frames: seq<Frame>): bool
    requires frames != []
  {
    (|frames| > 1 ==> FramesClosed(frames[..|frames| - 1])) && AllClosed(Top(frames).children)
  }

  function Summary(nested: Nested): Option<seq<string>>
    requires nested.Open? ==> nested.frames != []
  {
    if nested.Open? && FramesClosed(nested.frames) then Some(Names(nested.frames)) else None
  }

  /** Frames above the first are sections, and no end tag waits in a frame. */
  ghost predicate WellFormed(frames: seq<Frame>) {
    && frames != []
    && (forall i :: 1 <= i < |frames| ==> frames[i].section.tag.IsSectionBegin())
    && (forall i :: 0 <= i < |frames| && frames[i].children != [] ==>
        !frames[i].children[|frames[i].children| - 1].tag.IsSectionEnd())
  }

  lemma NestWellFormed(frames: seq<Frame>, t: Component)
    requires WellFormed(frames) && Nest(frames, t).Open?
    ensures WellFormed(Nest(frames, t).frames)
  {
  }

  lemma AppendSummary(frames: seq<Frame>, comp: Component)
    requires frames != []
    ensures FramesClosed(Append(frames, comp)) <==> FramesClosed(frames) && UnclosedIn(comp) == None
    ensures Names(Append(frames, comp)) == Names(frames)
  {
    hide UnclosedIn, AllClosed;
    ClosedAppend(Top(frames).children, comp);
    assert Append(frames, comp)[..|frames| - 1] == frames[..|frames| - 1];
  }

  lemma LeafClosed(t: Component)
    requires t.children == [] && !t.tag.IsSectionBegin()
    ensures UnclosedIn(t) == None
  {
  }

  /** Closing a section with end t keeps all closed exactly when the names agree. */
  lemma CloseSummary(frames: seq<Frame>, t: Component)
    requires WellFormed(frames) && |frames| > 1 && t.children == [] && t.tag.IsSectionEnd()
    ensures var r := CloseTop(Append(frames, t));
            (FramesClosed(r) <==> FramesClosed(frames) && t.tag.name == Top(frames).section.tag.name) &&
            Names(r) == Names(frames[..|frames| - 1])
  {
    var top := Top(frames);
    var comp := top.section.(children := top.children + [t]);
    assert comp.children[..|comp.children| - 1] == top.children;
    assert UnclosedIn(comp) == None <==> t.tag.name == top.section.tag.name && AllClosed(top.children);
    hide UnclosedIn, AllClosed;
    AppendSummary(frames[..|frames| - 1], comp);
    assert Append(frames, t)[..|frames| - 1] == frames[..|frames| - 1];
  }

  lemma NestSummary(frames: seq<Frame>, t: Component)
    requires WellFormed(frames) && t.children == []
    ensures Summary(Nest(frames, t)) == Fit(Summary(Open(frames)), t.tag)
  {
    hide UnclosedIn;
    if t.tag.IsSectionBegin() {
      assert (frames + [Frame(t, [])])[..|frames|] == frames;
    } else if !t.tag.IsSectionEnd() {
      LeafClosed(t);
      AppendSummary(frames, t);
    } else if |frames| > 1 {
      hide AllClosed, FramesClosed;
      CloseSummary(frames, t);
      assert Names(frames)[..|frames| - 2] == Names(frames[..|frames| - 1]);
    }
  }

  lemma {:induction false} StackIsSummary(tokens: seq<Component>)
    requires Flat(tokens)
    ensures Stack(tokens) == Summary(NestAll(tokens))
    ensures NestAll(tokens).Open? ==> WellFormed(NestAll(tokens).frames)
  {
    if tokens == [] {
    } else {
      var n := |tokens| - 1;
      StackIsSummary(tokens[..n]);
      hide Summary, Fit, Nest, WellFormed;
      var before := NestAll(tokens[..n]);
      if before.Open? {
        NestSummary(before.frames, tokens[n]);
        if Nest(before.frames, tokens[n]).Open? {
          NestWellFormed(before.frames, tokens[n]);
        }
      } else {
        NothingFits(before, tokens[n].tag);
      }
    }
  }

  lemma NothingFits(nested: Nested, tag: Tag)
    requires nested.Unopened?
    ensures Summary(nested) == None && Fit(Summary(nested), tag) == None
  {
  }

  /** A section still open, or badly closed inside, shows in the whole template. */
  lemma {:induction false} CollapseClosed(frames: seq<Frame>)
    requires WellFormed(frames)
    ensures AllClosed(Collapse(frames)) <==> |frames| == 1 && FramesClosed(frames)
    decreases |frames|
  {
    if |frames| > 1 {
      var top := Top(frames);
      var comp := top.section.(children := top.children);
      assert UnclosedIn(comp).Some?;
      hide UnclosedIn, AllClosed;
      AppendSummary(frames[..|frames| - 1], comp);
      assert !FramesClosed(CloseTop(frames));
      assert WellFormed(CloseTop(frames));
      hide WellFormed, FramesClosed;
      CollapseClosed(CloseTop(frames));
    }
  }

  /** The parse succeeds exactly when every tag is closed and legal and the sections are balanced. */
  lemma ParseSucceeds(input: string)
    ensures Result(input).Template? <==> Tokens(input).error == None && Balanced(Tokens(input).tokens)
  {
    hide Lex, NestAll, Stack, Collapse, StripAll, WellFormed, FirstUnclosed, FramesClosed;
    var lexed := Tokens(input);
    TokensFlat(input);
    StackIsSummary(lexed.tokens);
    var nested := NestAll(lexed.tokens);
    if nested.Open? {
      CollapseClosed(nested.frames);
    }
  }

  // ----- The shape of the tree

  /** A section ends with an end tag, and end tags stand nowhere else. */
  predicate IsClosed(comp: Component) {
    if comp.tag.IsSectionBegin() then
      && comp.children != []
      && var n := |comp.children| - 1;
         comp.children[n].tag.IsSectionEnd() && comp.children[n].children == [] && AreClosed(comp.children[..n])
    else !comp.tag.IsSectionEnd() && comp.children == []
  }

  predicate AreClosed(comps: seq<Component>) {
    comps == [] || (AreClosed(comps[..|comps| - 1]) && IsClosed(comps[|comps| - 1]))
  }

  lemma ClosedSnoc(comps: seq<Component>, comp: Component)
    ensures AreClosed(comps + [comp]) <==> AreClosed(comps) && IsClosed(comp)
  {
    hide IsClosed;
    assert (comps + [comp])[..|comps|] == comps;
  }

  function AppendAll(frames: seq<Frame>, comps: seq<Component>): (r: seq<Frame>)
    requires frames != []
    ensures |r| == |frames|
  {
    frames[|frames| - 1 := Frame(Top(frames).section, Top(frames).children + comps)]
  }

  lemma AppendTwice(frames: seq<Frame>, a: seq<Component>, b: seq<Component>)
    requires frames != []
    ensures AppendAll(AppendAll(frames, a), b) == AppendAll(frames, a + b) && AppendAll(frames, []) == frames
  {
    var top := Top(frames);
    assert top.children + [] == top.children;
    assert top.children + a + b == top.children + (a + b);
  }

  /** The tokens of a closed tree nest to that tree, in whatever section they stand. */
  lemma {:induction false} NestClosed(tokens: seq<Component>, comps: seq<Component>)
    requires NestAll(tokens).Open? && AreClosed(comps)
    ensures NestAll(tokens + Preorder(comps)) == Open(AppendAll(NestAll(tokens).frames, comps))
    decreases comps, 0
  {
    hide NestAll, IsClosed, AppendAll, PreorderOf;
    var frames := NestAll(tokens).frames;
    if comps == [] {
      assert tokens + [] == tokens;
      AppendTwice(frames, [], []);
    } else {
      var n := |comps| - 1;
      NestClosed(tokens, comps[..n]);
      NestComponent(tokens + Preorder(comps[..n]), comps[n]);
      assert tokens + Preorder(comps) == tokens + Preorder(comps[..n]) + PreorderOf(comps[n]);
      assert comps == comps[..n] + [comps[n]];
      AppendTwice(frames, comps[..n], [comps[n]]);
    }
  }

  lemma {:induction false} NestComponent(tokens: seq<Component>, comp: Component)
    requires NestAll(tokens).Open? && IsClosed(comp)
    ensures NestAll(tokens + PreorderOf(comp)) == Open(AppendAll(NestAll(tokens).frames, [comp]))
    decreases comp
  {
    hide NestAll, Preorder, AreClosed;
    var frames, begin := NestAll(tokens).frames, comp.(children := []);
    NestOne(tokens, begin);
    if comp.tag.IsSectionBegin() {
      var n := |comp.children| - 1;
      var body, end := comp.children[..n], comp.children[n];
      NestClosed(tokens + [begin], body);
      NestOne(tokens + [begin] + Preorder(body), end);
      PreorderAppend(body, end);
      Single(end);
      assert comp.children == body + [end];
      assert tokens + PreorderOf(comp) == tokens + [begin] + Preorder(body) + [end];
      Closing(frames, comp, body, end);
    } else {
      Single(comp);
      assert begin == comp;
    }
  }

  /** A section that has all its children goes into the one around it. */
  lemma Closing(frames: seq<Frame>, comp: Component, body: seq<Component>, end: Component)
    requires frames != [] && comp.children == body + [end] && end.tag.IsSectionEnd()
    ensures Nest(AppendAll(frames + [Frame(comp.(children := []), [])], body), end) == Open(AppendAll(frames, [comp]))
  {
    var inner := AppendAll(frames + [Frame(comp.(children := []), [])], body);
    assert inner[..|frames|] == frames;
    assert Append(inner, end)[..|frames|] == frames;
    assert Top(Append(inner, end)).children == comp.children;
    assert comp.(children := []).(children := comp.children) == comp;
  }

  ghost predicate FramesAreClosed(frames: seq<Frame>) {
    forall i :: 0 <= i < |frames| ==> AreClosed(frames[i].children)
  }

  lemma NestKeepsClosed(frames: seq<Frame>, t: Component)
    requires frames != [] && WellFormed(frames) && FramesAreClosed(frames) && t.children == [] && Nest(frames, t).Open?
    ensures FramesAreClosed(Nest(frames, t).frames)
  {
    hide AreClosed, WellFormed;
    var top := Top(frames);
    ClosedSnoc(top.children, t);
    if t.tag.IsSectionBegin() {
      NothingClosed();
    } else if t.tag.IsSectionEnd() {
      var comp := top.section.(children := top.children + [t]);
      SectionOf(frames);
      assert comp.children[..|top.children|] == top.children;
      ClosedSnoc(frames[|frames| - 2].children, comp);
    }
  }

  lemma SectionOf(frames: seq<Frame>)
    requires WellFormed(frames) && |frames| > 1
    ensures Top(frames).section.tag.IsSectionBegin()
  {
  }

  lemma NothingClosed()
    ensures AreClosed([])
  {
  }

  lemma {:induction false} NestedAreClosed(tokens: seq<Component>)
    requires Flat(tokens) && NestAll(tokens).Open?
    ensures FramesAreClosed(NestAll(tokens).frames)
  {
    hide AreClosed, WellFormed, Nest;
    if tokens == [] {
      NothingClosed();
    } else {
      var n := |tokens| - 1;
      NestedAreClosed(tokens[..n]);
      StackIsSummary(tokens[..n]);
      NestKeepsClosed(NestAll(tokens[..n]).frames, tokens[n]);
    }
  }

  /** The parser's tree is the one closed tree that holds the tokens in order. */
  lemma TreeIsTheOne(input: string, comps: seq<Component>)
    ensures NestAll(Tokens(input).tokens) == Open([Frame(ROOT, comps)]) <==>
            AreClosed(comps) && Preorder(comps) == Tokens(input).tokens
  {
    hide Tokens, NestAll, AreClosed, Preorder;
    var tokens := Tokens(input).tokens;
    TokensFlat(input);
    NothingNestedYet();
    if NestAll(tokens) == Open([Frame(ROOT, comps)]) {
      NestedAreClosed(tokens);
      FramesHoldTokens(tokens);
    }
    if AreClosed(comps) && Preorder(comps) == tokens {
      NestClosed([], comps);
      assert [] + tokens == tokens && [] + comps == comps;
    }
  }

  lemma NothingNestedYet()
    ensures NestAll([]) == Open([Frame(ROOT, [])])
  {
  }

  /** A template is what its closed tree leaves when the end tags that fit are taken out. */
  lemma TemplateIs(input: string, root: seq<Component>)
    ensures Result(input) == Template(root) <==>
            Tokens(input).error == None &&
            exists comps :: AreClosed(comps) && Preorder(comps) == Tokens(input).tokens &&
                            FirstUnclosed(comps) == None && root == StripAll(comps)
  {
    hide Tokens, NestAll, AreClosed, Preorder, FirstUnclosed, StripAll, WellFormed;
    var tokens := Tokens(input).tokens;
    var nested := NestAll(tokens);
    TokensFlat(input);
    StackIsSummary(tokens);
    if Result(input) == Template(root) {
      CollapseClosed(nested.frames);
      var comps := nested.frames[0].children;
      FirstIsRoot(tokens);
      assert nested.frames == [Frame(ROOT, comps)];
      TreeIsTheOne(input, comps);
    }
    forall comps | AreClosed(comps) && Preorder(comps) == tokens
      ensures nested == Open([Frame(ROOT, comps)]) && Collapse(nested.frames) == comps
    {
      TreeIsTheOne(input, comps);
    }
  }

  lemma {:induction false} FirstIsRoot(tokens: seq<Component>)
    requires NestAll(tokens).Open?
    ensures NestAll(tokens).frames[0].section == ROOT
  {
    if tokens != [] {
      FirstIsRoot(tokens[..|tokens| - 1]);
    }
  }

  // ----- The loop of the parser

  /** The current text becomes a component of the innermost section. */
  function ProcessText(frames: seq<Frame>, text: string, textAt: nat): (r: seq<Frame>)
    requires frames != []
    ensures |r| == |frames|
  {
    if text == "" then frames else Append(frames, Word(text, textAt))
  }

  lemma NestText(tokens: seq<Component>, text: string, textAt: nat)
    requires NestAll(tokens).Open?
    ensures NestAll(tokens + Pending(text, textAt)) == Open(ProcessText(NestAll(tokens).frames, text, textAt))
  {
    if text == "" {
      assert tokens + [] == tokens;
    } else {
      NestOne(tokens, Word(text, textAt));
    }
  }

  lemma NestWord(tokens: seq<Component>, text: string, at: nat)
    requires NestAll(tokens).Open?
    ensures NestAll(tokens + [Word(text, at)]) == Open(Append(NestAll(tokens).frames, Word(text, at)))
  {
    NestOne(tokens, Word(text, at));
  }

  /** What the parser has read: it goes on to the same tokens, and the sections nest those in front. */
  ghost predicate Progress(input: string, at: nat, d: Delimiters, text: string, textAt: nat, front: seq<Component>,
                           sections: seq<Frame>) {
    && at <= |input| && d.begin != "" && sections != []
    && Lex(input, at, d, text, textAt, front) == Tokens(input)
    && NestAll(front) == Open(sections)
  }

  lemma Started(input: string)
    ensures Progress(input, 0, DEFAULT, "", 0, [], [Frame(ROOT, [])])
  {
  }

  /** A character of text or a white space is taken. */
  lemma TookText(input: string, at: nat, d: Delimiters, text: string, textAt: nat, front: seq<Component>,
                 sections: seq<Frame>)
    requires Progress(input, at, d, text, textAt, front, sections) && at < |input| && !StandsAt(input, at, d.begin)
    ensures var n := WhitespaceAt(input, at);
            if n > 0 then
              Progress(input, at + n, d, "", 0, front + Pending(text, textAt) + [Word(input[at..at + n], at)],
                       Append(ProcessText(sections, text, textAt), Word(input[at..at + n], at)))
            else
              Progress(input, at + 1, d, text + [input[at]], if text == "" then at else textAt, front, sections)
  {
    hide WhitespaceAt, NestAll, Word;
    NestText(front, text, textAt);
    NestWord(front + Pending(text, textAt), input[at..at + WhitespaceAt(input, at)], at);
  }

  /** A tag is taken. */
  lemma TookTag(input: string, at: nat, d: Delimiters, text: string, textAt: nat, front: seq<Component>,
                sections: seq<Frame>)
    requires Progress(input, at, d, text, textAt, front, sections) && at < |input| && StandsAt(input, at, d.begin)
    ensures match TagAt(input, at, d)
            case Unclosed => Result(input) == Failed(UnclosedTag(at))
            case BadDelimiters => Result(input) == Failed(InvalidSetDelimiter(at))
            case Closed(comp, next, delimiters) =>
              var nested := Nest(ProcessText(sections, text, textAt), comp);
              if nested.Open? then Progress(input, next, delimiters, "", 0, front + Pending(text, textAt) + [comp],
                                            nested.frames)
              else Result(input) == Failed(UnopenedSection(comp.tag.name, comp.position))
  {
    hide NestAll, TagAt, Nest, Pending, ProcessText;
    NestText(front, text, textAt);
    var r := TagAt(input, at, d);
    if r.Closed? {
      var before := front + Pending(text, textAt);
      NestOne(before, r.comp);
      if !Nest(ProcessText(sections, text, textAt), r.comp).Open? {
        LexExtends(input, r.next, r.delimiters, "", 0, before + [r.comp]);
        NestSticks(before + [r.comp], Tokens(input).tokens);
        UnopenedIs(ProcessText(sections, text, textAt), r.comp);
      }
    }
  }

  lemma UnopenedIs(frames: seq<Frame>, t: Component)
    requires frames != [] && Nest(frames, t).Unopened?
    ensures Nest(frames, t).end == t
  {
  }

  lemma TookAll(input: string, d: Delimiters, text: string, textAt: nat, front: seq<Component>, sections: seq<Frame>)
    requires Progress(input, |input|, d, text, textAt, front, sections)
    ensures Tokens(input).error == None && NestAll(Tokens(input).tokens) == Open(ProcessText(sections, text, textAt))
  {
    hide NestAll, Pending, ProcessText;
    NestText(front, text, textAt);
  }

  /** Parses a template, with the default delimiters to begin with. */
  method Parse(input: string) returns (parsed: Parsed)
    ensures parsed == Result(input)
  {
    hide Lex, NestAll, TagAt, WhitespaceAt, Nest, ProcessText, Progress, FirstUnclosed, Collapse, Append;
    var sections, delimiters := [Frame(ROOT, [])], DEFAULT;
    var text, textAt, at := "", 0, 0;
    ghost var front: seq<Component> := [];
    Started(input);
    while at != |input|
      invariant Progress(input, at, delimiters, text, textAt, front, sections)
      invariant at <= |input| && delimiters.begin != "" && sections != []
      decreases |input| - at
    {
      if !StandsAt(input, at, delimiters.begin) {
        TookText(input, at, delimiters, text, textAt, front, sections);
        var n := WhitespaceAt(input, at);
        if n > 0 {
          front := front + Pending(text, textAt) + [Word(input[at..at + n], at)];
          sections := Append(ProcessText(sections, text, textAt), Word(input[at..at + n], at));
          text, textAt, at := "", 0, at + n;
        } else {
          textAt := if text == "" then at else textAt;
          text := text + [input[at]];
          at := at + 1;
        }
        continue;
      }
      TookTag(input, at, delimiters, text, textAt, front, sections);
      match TagAt(input, at, delimiters)
      case Unclosed => return Failed(UnclosedTag(at));
      case BadDelimiters => return Failed(InvalidSetDelimiter(at));
      case Closed(comp, next, chosen) =>
        var nested := Nest(ProcessText(sections, text, textAt), comp);
        front := front + Pending(text, textAt) + [comp];
        if nested.Unopened? {
          return Failed(UnopenedSection(comp.tag.name, comp.position));
        }
        sections := nested.frames;
        text, textAt, at, delimiters := "", 0, next, chosen;
    }
    TookAll(input, delimiters, text, textAt, front, sections);
    sections := ProcessText(sections, text, textAt);
    var tree := Collapse(sections);
    var unclosed, root := CheckSections(tree);
    parsed := if unclosed.Some? then Failed(unclosed.value) else Template(root);
  }

  /** What the walk does with one component. */
  lemma WalkStep(comps: seq<Component>, i: nat)
    requires i < |comps|
    ensures var comp := comps[i];
            var open := comp.tag.IsSectionBegin() && !EndsWithItsTag(comp);
            var rest := if comp.tag.IsSectionBegin() && comp.children != [] then comp.children[..|comp.children| - 1]
                        else comp.children;
            && FirstUnclosed(comps[i..]) ==
               (if open then Some(UnclosedSection(comp.tag.name, comp.position))
                else if FirstUnclosed(rest).Some? then FirstUnclosed(rest) else FirstUnclosed(comps[i + 1..]))
            && StripAll(comps[i..]) == [comp.(children := StripAll(rest))] + StripAll(comps[i + 1..])
  {
    assert comps[i..][1..] == comps[i + 1..] && comps[i..][0] == comps[i];
    assert FirstUnclosed(comps[i..]) ==
           if UnclosedIn(comps[i]).Some? then UnclosedIn(comps[i]) else FirstUnclosed(comps[i + 1..]);
    hide FirstUnclosed;
  }

  /** The walk over the components: the first unclosed section, or the template without end tags. */
  method CheckSections(comps: seq<Component>) returns (unclosed: Option<Error>, root: seq<Component>)
    ensures unclosed == FirstUnclosed(comps)
    ensures unclosed == None ==> root == StripAll(comps)
    decreases comps
  {
    hide FirstUnclosed, StripAll;
    root := [];
    var i := 0;
    assert comps[0..] == comps;
    while i < |comps|
      invariant 0 <= i <= |comps| && FirstUnclosed(comps) == FirstUnclosed(comps[i..])
      invariant StripAll(comps) == root + StripAll(comps[i..])
    {
      WalkStep(comps, i);
      var comp := comps[i];
      if comp.tag.IsSectionBegin() && !EndsWithItsTag(comp) {
        return Some(UnclosedSection(comp.tag.name, comp.position)), [];
      }
      var rest := if comp.tag.IsSectionBegin() then comp.children[..|comp.children| - 1] else comp.children;
      var children;
      unclosed, children := CheckSections(rest);
      if unclosed.Some? {
        return unclosed, [];
      }
      root := root + [comp.(children := children)];
      i := i + 1;
    }
    NothingUnclosed(comps[i..]);
    unclosed := None;
  }

  lemma NothingUnclosed(comps: seq<Component>)
    requires comps == []
    ensures FirstUnclosed(comps) == None && StripAll(comps) == []
  {
  }
}
