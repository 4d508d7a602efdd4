// What a template of src/common/mustache.hpp renders, from its characters to its output:
// texts, variables, comments and sections, nested as deep as one likes.

module MustacheTemplates {
  import opened MustacheParser
  import opened MustacheRenderer
  import opened MustacheTags

  /** {{name}}, {{&name}}, {{{name}}} and {{!name}}. */
  datatype Style = Escaped | Ampersand | Braces | Remark

  /** A tag by itself, or a section with what it holds. */
  datatype Item = Leaf(style: Style, name: string) | Block(inverted: bool, name: string, body: Body)

  /** A template: text, an item after it and so on, and the text at the end. */
  datatype Body = End(tail: string) | Then(text: string, item: Item, rest: Body)

  // ----- The characters

  function Tagged(kind: TagType, name: string): string {
    "{{" + (Sigil(kind) + name) + "}}"
  }

  function LeafSource(style: Style, name: string): string {
    match style
    case Escaped => "{{" + name + "}}"
    case Ampersand => Tagged(UnescapedVariable, name)
    case Braces => "{{{" + name + "}}}"
    case Remark => Tagged(Comment, name)
  }

  function BlockKind(inverted: bool): TagType {
    if inverted then SectionBeginInverted else SectionBegin
  }

  function ItemSource(item: Item): string {
    match item
    case Leaf(style, name) => LeafSource(style, name)
    case Block(inverted, name, body) => Tagged(BlockKind(inverted), name) + Written(body) + Tagged(SectionEnd, name)
  }

  function Written(b: Body): string {
    match b
    case End(tail) => tail
    case Then(text, item, rest) => text + ItemSource(item) + Written(rest)
  }

  /** The first start delimiter after the text is that of the tag that follows. */
  predicate IsText(text: string) {
    Find(text + "{{", "{{", 0) == |text|
  }

  predicate IsLeaf(style: Style, name: string) {
    match style
    case Escaped => IsPlainName(name)
    case Braces => IsName(name) && name[0] != '='
    case _ => IsName(name)
  }

  predicate IsItem(item: Item) {
    match item
    case Leaf(style, name) => IsLeaf(style, name)
    case Block(_, name, body) => IsName(name) && IsBody(body, true)
  }

  /** Names can stand in their tags and texts hold no start delimiter. */
  predicate IsBody(b: Body, inside: bool) {
    match b
    case End(tail) => if inside then IsText(tail) else Find(tail, "{{", 0) == -1
    case Then(text, item, rest) => IsText(text) && IsItem(item) && IsBody(rest, inside)
  }

  // ----- The output

  /** Text character by character, each line ending by itself. */
  function TextPieces(text: string): seq<Piece> {
    if text == "" then []
    else if StandsAt(text, 0, "\r\n") then [Newline("\r\n")] + TextPieces(text[2..])
    else if text[0] == '\r' || text[0] == '\n' then [Newline([text[0]])] + TextPieces(text[1..])
    else [Chars([text[0]])] + TextPieces(text[1..])
  }

  /** What stands for a tag by itself: the string that has its name, or nothing. */
  function Value(items: seq<Data>, style: Style, name: string): string
    requires items != []
  {
    var v := Get(items, name);
    if style == Remark || v.None? || !v.value.Str? then ""
    else if style == Escaped then Escape(v.value.text)
    else v.value.text
  }

  function ItemPieces(items: seq<Data>, item: Item): seq<Piece>
    requires items != []
    decreases item, 0
  {
    match item
    case Leaf(style, name) => [Chars(Value(items, style, name))]
    case Block(inverted, name, body) =>
      var v := Get(items, name);
      if inverted then
        if v.None? then BlockPieces(items, body)
        else if IsShown(v.value) then []
        else BlockPieces([v.value] + items, body)
      else if v.None? || !IsShown(v.value) then []
      else if v.value.List? then ListPieces(items, v.value.items, body)
      else BlockPieces([v.value] + items, body)
  }

  /** The body between the marks that the section leaves in its lines. */
  function BlockPieces(items: seq<Data>, body: Body): seq<Piece>
    requires items != []
    decreases body, 1
  {
    [Mark] + BodyPieces(items, body) + [Mark]
  }

  function ListPieces(items: seq<Data>, list: seq<Data>, body: Body): seq<Piece>
    requires items != []
    decreases body, 2, |list|
  {
    if list == [] then []
    else ListPieces(items, list[..|list| - 1], body) + BlockPieces([list[|list| - 1]] + items, body)
  }

  function BodyPieces(items: seq<Data>, b: Body): seq<Piece>
    requires items != []
    decreases b, 0
  {
    match b
    case End(tail) => TextPieces(tail)
    case Then(text, item, rest) => TextPieces(text) + ItemPieces(items, item) + BodyPieces(items, rest)
  }

  // ----- The tree

  /** How far text goes on without white space. */
  function RunLength(text: string): (n: nat)
    ensures n <= |text| && (forall i :: 0 <= i < n ==> WhitespaceAt(text, i) == 0)
    ensures n < |text| ==> WhitespaceAt(text, n) > 0
  {
    RunFrom(text, 0)
  }

  function RunFrom(text: string, from: nat): (n: nat)
    requires from <= |text|
    ensures from <= n <= |text| && (forall i :: from <= i < n ==> WhitespaceAt(text, i) == 0)
    ensures n < |text| ==> WhitespaceAt(text, n) > 0
    decreases |text| - from
  {
    if from == |text| || WhitespaceAt(text, from) > 0 then from else RunFrom(text, from + 1)
  }

  /** The length of the white space or the word that text begins with. */
  function WordLength(text: string): (n: nat)
    requires text != ""
    ensures 0 < n <= |text|
  {
    if WhitespaceAt(text, 0) > 0 then WhitespaceAt(text, 0) else RunLength(text)
  }

  function Words(text: string, at: nat): seq<Component> {
    if text == "" then []
    else
      var n := WordLength(text);
      [Word(text[..n], at)] + Words(text[n..], at + n)
  }

  function LeafTag(style: Style, name: string): Tag {
    Tag(match style case Escaped => Variable case Remark => Comment case _ => UnescapedVariable, name)
  }

  function EndTag(name: string, at: nat): Component {
    Component("", Tag(SectionEnd, name), [], at)
  }

  /** The component of an item as the parser nests it, with the end tag of a section. */
  function ItemTree(item: Item, at: nat): Component {
    match item
    case Leaf(style, name) => Component("", LeafTag(style, name), [], at)
    case Block(inverted, name, body) =>
      var from := at + |Tagged(BlockKind(inverted), name)|;
      Component("", Tag(BlockKind(inverted), name), Tree(body, from) + [EndTag(name, from + |Written(body)|)], at)
  }

  function Tree(b: Body, at: nat): seq<Component> {
    match b
    case End(tail) => Words(tail, at)
    case Then(text, item, rest) =>
      Words(text, at) + [ItemTree(item, at + |text|)] + Tree(rest, at + |text| + |ItemSource(item)|)
  }

  // ----- Strings that stand in the input

  lemma StandsJoin(input: string, at: nat, s: string, t: string)
    ensures StandsAt(input, at, s + t) <==> StandsAt(input, at, s) && StandsAt(input, at + |s|, t)
  {
    if at + |s| + |t| <= |input| {
      var a, b, all := input[at..at + |s|], input[at + |s|..at + |s| + |t|], input[at..at + |s| + |t|];
      assert all == a + b;
      if all == s + t {
        assert a == all[..|s|] == s && b == all[|s|..] == t;
      }
    }
  }

  lemma StandsAround(input: string, at: nat, s: string)
    requires StandsAt(input, at, s)
    ensures input == input[..at] + s + input[at + |s|..]
  {
  }

  lemma SameStanding(input: string, at: nat, s: string, i: nat, t: string)
    requires StandsAt(input, at, s) && i + |t| <= |s|
    ensures StandsAt(input, at + i, t) <==> StandsAt(s, i, t)
  {
    assert s == s[..i] + s[i..i + |t|] + s[i + |t|..];
    StandsJoin(input, at, s[..i] + s[i..i + |t|], s[i + |t|..]);
    StandsJoin(input, at, s[..i], s[i..i + |t|]);
  }

  /** No tag begins in a text before a tag. */
  lemma NoTagInText(input: string, at: nat, text: string)
    requires IsText(text) && StandsAt(input, at, text + "{{")
    ensures forall i :: at <= i < at + |text| ==> !StandsAt(input, i, "{{")
  {
    hide StandsAt;
    forall i | at <= i < at + |text|
      ensures !StandsAt(input, i, "{{")
    {
      SameStanding(input, at, text + "{{", i - at, "{{");
    }
  }

  lemma NoTagAtEnd(input: string, at: nat, tail: string)
    requires Find(tail, "{{", 0) == -1 && StandsAt(input, at, tail) && at + |tail| == |input|
    ensures forall i :: at <= i < at + |tail| ==> !StandsAt(input, i, "{{")
  {
    hide Find, StandsAt;
    forall i | at <= i < |input|
      ensures !StandsAt(input, i, "{{")
    {
      NotFound(tail, "{{", i - at);
      if i + 2 <= |input| {
        SameStanding(input, at, tail, i - at, "{{");
      } else {
        TooLong(input, i, "{{");
      }
    }
  }

  lemma NotFound(tail: string, s: string, i: nat)
    requires Find(tail, s, 0) == -1 && i < |tail|
    ensures !StandsAt(tail, i, s)
  {
    hide StandsAt;
  }

  lemma TooLong(input: string, at: nat, s: string)
    requires at + |s| > |input|
    ensures !StandsAt(input, at, s)
  {
  }

  // ----- The tokens of a text

  /** Where the text ends: at the end of the input or at a tag. */
  ghost predicate TextStops(input: string, at: nat) {
    at == |input| || StandsAt(input, at, "{{")
  }

  lemma NoLineEnd(input: string, at: nat)
    requires at < |input| && TextStops(input, at + 1)
    ensures !StandsAt(input, at, "\r\n")
  {
    if at + 1 < |input| {
      StandsFirst(input, at + 1, "{{");
      assert input[at..at + 2][1] == input[at + 1];
    }
  }

  lemma SameWhitespace(input: string, at: nat, text: string, i: nat)
    requires StandsAt(input, at, text) && i < |text| && TextStops(input, at + |text|)
    ensures WhitespaceAt(input, at + i) == WhitespaceAt(text, i)
  {
    assert input[at + i] == input[at..at + |text|][i] == text[i];
    hide Find;
    if i + 1 < |text| {
      SameStanding(input, at, text, i, "\r\n");
    } else {
      NoLineEnd(input, at + i);
    }
  }

  /** The run that a text begins with is one of the input. */
  lemma RunInPlace(input: string, at: nat, text: string)
    requires text != "" && StandsAt(input, at, text) && TextStops(input, at + |text|)
    requires forall i :: at <= i < at + |text| ==> !StandsAt(input, i, "{{")
    requires WhitespaceAt(text, 0) == 0
    ensures var to := at + RunLength(text); IsRun(input, at, to, DEFAULT) && RunEnds(input, to, DEFAULT)
  {
    assert at + |text| <= |input|;
    hide WhitespaceAt, StandsAt;
    var n := RunLength(text);
    forall i | at <= i < at + n
      ensures WhitespaceAt(input, i) == 0
    {
      SameWhitespace(input, at, text, i - at);
    }
    if n < |text| {
      SameWhitespace(input, at, text, n);
    }
  }

  /** The first word of a text is a token. */
  lemma FirstWord(input: string, at: nat, text: string)
    requires text != "" && StandsAt(input, at, text) && TextStops(input, at + |text|)
    requires forall i :: at <= i < at + |text| ==> !StandsAt(input, i, "{{")
    ensures var n := WordLength(text);
            IsWordAt(input, at, DEFAULT, Word(text[..n], at)) && StandsAt(input, at + n, text[n..])
  {
    var n := WordLength(text);
    hide WhitespaceAt, StandsAt, RunLength, IsRun, RunEnds;
    assert text == text[..n] + text[n..];
    StandsJoin(input, at, text[..n], text[n..]);
    SameWhitespace(input, at, text, 0);
    if WhitespaceAt(text, 0) == 0 {
      RunInPlace(input, at, text);
    }
  }

  lemma {:induction false} WordsTile(input: string, at: nat, text: string, rest: seq<Component>, error: Option<Error>)
    requires StandsAt(input, at, text) && TextStops(input, at + |text|)
    requires forall i :: at <= i < at + |text| ==> !StandsAt(input, i, "{{")
    requires Tile(input, at + |text|, DEFAULT, rest, error)
    ensures Tile(input, at, DEFAULT, Words(text, at) + rest, error)
    decreases |text|
  {
    hide Tile, IsWordAt, TextStops, StandsAt, WordLength, Words, Word;
    WordsCut(text, at);
    if text == "" {
      assert [] + rest == rest;
    } else {
      var n := WordLength(text);
      FirstWord(input, at, text);
      WordsTile(input, at + n, text[n..], rest, error);
      WordIs(text[..n], at);
      TileFront(input, at, DEFAULT, Word(text[..n], at), Words(text[n..], at + n) + rest, error);
      assert Words(text, at) + rest == [Word(text[..n], at)] + (Words(text[n..], at + n) + rest);
    }
  }

  lemma WordsCut(text: string, at: nat)
    ensures text == "" ==> Words(text, at) == []
    ensures text != "" ==>
              var n := WordLength(text);
              Words(text, at) == [Word(text[..n], at)] + Words(text[n..], at + n)
  {
    hide WordLength, Word;
  }

  lemma WordIs(text: string, at: nat)
    ensures Word(text, at).tag.kind == Text && Word(text, at).text == text && Word(text, at).children == []
  {
  }

  // ----- The tokens of a template

  /** A leaf is read as it is meant. */
  lemma LeafRead(front: string, style: Style, name: string, rest: string)
    requires IsLeaf(style, name)
    ensures var source := LeafSource(style, name); var input, at := front + source + rest, |front|;
            StandsAt(input, at, DEFAULT.begin) &&
            TagAt(input, at, DEFAULT) == Closed(Component("", LeafTag(style, name), [], at), at + |source|, DEFAULT)
  {
    hide TagAt, StandsAt, IsName, IsPlainName;
    LeafNamed(style, name);
    match style
    case Escaped =>
      VariableRead(front, name, rest);
      Associates(front, "{{", name, "}}", rest);
    case Braces =>
      TripleRead(front, name, rest);
      Associates(front, "{{{", name, "}}}", rest);
    case Ampersand =>
      TagRead(front, UnescapedVariable, name, rest);
      Associates(front, "{{", Sigil(UnescapedVariable) + name, "}}", rest);
    case Remark =>
      TagRead(front, Comment, name, rest);
      Associates(front, "{{", Sigil(Comment) + name, "}}", rest);
  }

  lemma LeafNamed(style: Style, name: string)
    requires IsLeaf(style, name)
    ensures IsName(name) && (style == Escaped ==> IsPlainName(name))
  {
  }

  lemma Associates(a: string, b: string, c: string, d: string, e: string)
    ensures a + (b + c + d) + e == a + b + c + d + e
  {
  }

  lemma StandsInside(input: string, at: nat, s: string)
    requires s != "" && StandsAt(input, at, s)
    ensures at < |input|
  {
  }

  /** A tag that stands in the input is the next token. */
  lemma LeafTiles(input: string, at: nat, style: Style, name: string, rest: seq<Component>, error: Option<Error>)
    requires IsLeaf(style, name) && StandsAt(input, at, LeafSource(style, name))
    requires Tile(input, at + |LeafSource(style, name)|, DEFAULT, rest, error)
    ensures StandsAt(input, at, "{{")
    ensures Tile(input, at, DEFAULT, [Component("", LeafTag(style, name), [], at)] + rest, error)
  {
    hide TagAt, Tile, LeafSource, IsLeaf, LeafTag;
    var source := LeafSource(style, name);
    StandsAround(input, at, source);
    LeafRead(input[..at], style, name, input[at + |source|..]);
    StandsInside(input, at, "{{");
    hide StandsAt;
    TileClosed(input, at, DEFAULT, TagAt(input, at, DEFAULT), rest, error);
  }

  lemma TaggedRead(front: string, kind: TagType, name: string, rest: string)
    requires HasSigil(kind) && IsName(name)
    ensures var source := Tagged(kind, name); var input, at := front + source + rest, |front|;
            StandsAt(input, at, DEFAULT.begin) &&
            TagAt(input, at, DEFAULT) == Closed(Component("", Tag(kind, name), [], at), at + |source|, DEFAULT)
  {
    SigilOne(kind);
    hide TagAt, StandsAt, IsName, Sigil;
    TagRead(front, kind, name, rest);
    Associates(front, "{{", Sigil(kind) + name, "}}", rest);
  }

  lemma TaggedTiles(input: string, at: nat, kind: TagType, name: string, rest: seq<Component>, error: Option<Error>)
    requires HasSigil(kind) && IsName(name) && StandsAt(input, at, Tagged(kind, name))
    requires Tile(input, at + |Tagged(kind, name)|, DEFAULT, rest, error)
    ensures StandsAt(input, at, "{{")
    ensures Tile(input, at, DEFAULT, [Component("", Tag(kind, name), [], at)] + rest, error)
  {
    hide TagAt, Tile, Tagged, IsName;
    var source := Tagged(kind, name);
    StandsAround(input, at, source);
    TaggedRead(input[..at], kind, name, input[at + |source|..]);
    StandsInside(input, at, "{{");
    hide StandsAt;
    TileClosed(input, at, DEFAULT, TagAt(input, at, DEFAULT), rest, error);
  }

  lemma SigilOne(kind: TagType)
    requires HasSigil(kind)
    ensures |Sigil(kind)| == 1
  {
  }

  lemma {:induction false} PreorderJoin(a: seq<Component>, b: seq<Component>)
    ensures Preorder(a + b) == Preorder(a) + Preorder(b)
  {
    hide PreorderOf, Preorder;
    if b == [] {
      assert a + b == a;
      Single(ROOT);
    } else {
      var front, last := b[..|b| - 1], b[|b| - 1];
      PreorderJoin(a, front);
      PreorderAppend(a + front, last);
      PreorderAppend(front, last);
      assert b == front + [last] && a + b == a + front + [last];
    }
  }

  lemma PreorderOne(comp: Component)
    ensures Preorder([comp]) == PreorderOf(comp)
  {
    assert [comp][..0] == [];
  }

  lemma {:induction false} WordsAreFlat(text: string, at: nat)
    ensures Preorder(Words(text, at)) == Words(text, at)
    decreases |text|
  {
    hide WordLength, Word, Preorder, PreorderOf;
    if text == "" {
      Single(ROOT);
    } else {
      var n := WordLength(text);
      WordsAreFlat(text[n..], at + n);
      WordIs(text[..n], at);
      Single(Word(text[..n], at));
      PreorderOne(Word(text[..n], at));
      PreorderJoin([Word(text[..n], at)], Words(text[n..], at + n));
    }
  }

  /** The tokens of an item follow one another in the input, whatever tokens come after. */
  lemma {:induction false} ItemTiles(input: string, at: nat, item: Item, rest: seq<Component>, error: Option<Error>)
    requires IsItem(item) && StandsAt(input, at, ItemSource(item))
    requires Tile(input, at + |ItemSource(item)|, DEFAULT, rest, error)
    ensures StandsAt(input, at, "{{")
    ensures Tile(input, at, DEFAULT, PreorderOf(ItemTree(item, at)) + rest, error)
    decreases item
  {
    hide Tile, StandsAt, Tagged, LeafSource, IsName, IsLeaf, Preorder, Tree, Written;
    match item
    case Leaf(style, name) =>
      LeafTiles(input, at, style, name, rest, error);
      Single(ItemTree(item, at));
    case Block(inverted, name, body) =>
      var kind := BlockKind(inverted);
      var open, close, inner := Tagged(kind, name), Tagged(SectionEnd, name), Written(body);
      var from := at + |open|;
      var end := from + |inner|;
      StandsJoin(input, at, open + inner, close);
      StandsJoin(input, at, open, inner);
      TaggedTiles(input, end, SectionEnd, name, rest, error);
      BodyTiles(input, from, body, true, [EndTag(name, end)] + rest, error);
      var begin, tree := Component("", Tag(kind, name), [], at), Tree(body, from);
      TaggedTiles(input, at, kind, name, Preorder(tree) + ([EndTag(name, end)] + rest), error);
      PreorderAppend(tree, EndTag(name, end));
      Single(EndTag(name, end));
      assert ItemTree(item, at).(children := []) == begin;
      assert PreorderOf(ItemTree(item, at)) + rest == [begin] + (Preorder(tree) + ([EndTag(name, end)] + rest));
  }

  lemma {:induction false} BodyTiles(input: string, at: nat, b: Body, inside: bool, rest: seq<Component>,
                                     error: Option<Error>)
    requires IsBody(b, inside) && StandsAt(input, at, Written(b))
    requires var end := at + |Written(b)|;
             (if inside then StandsAt(input, end, "{{") else end == |input|) && Tile(input, end, DEFAULT, rest, error)
    ensures Tile(input, at, DEFAULT, Preorder(Tree(b, at)) + rest, error)
    decreases b
  {
    hide Tile, StandsAt, IsText, IsItem, Preorder, PreorderOf, Words, ItemSource, ItemTree, Find;
    match b
    case End(tail) =>
      if inside {
        StandsJoin(input, at, tail, "{{");
        NoTagInText(input, at, tail);
      } else {
        NoTagAtEnd(input, at, tail);
      }
      WordsTile(input, at, tail, rest, error);
      WordsAreFlat(tail, at);
    case Then(text, item, more) =>
      var source, to := ItemSource(item), at + |text|;
      var next := to + |source|;
      StandsJoin(input, at, text + source, Written(more));
      StandsJoin(input, at, text, source);
      BodyTiles(input, next, more, inside, rest, error);
      var after := Preorder(Tree(more, next)) + rest;
      ItemTiles(input, to, item, after, error);
      StandsJoin(input, at, text, "{{");
      NoTagInText(input, at, text);
      var comp := ItemTree(item, to);
      WordsTile(input, at, text, PreorderOf(comp) + after, error);
      WordsAreFlat(text, at);
      PreorderAppend(Words(text, at), comp);
      PreorderJoin(Words(text, at) + [comp], Tree(more, next));
      assert Preorder(Tree(b, at)) + rest == Words(text, at) + (PreorderOf(comp) + after);
  }

  /** The tokens of a template are those of its tree. */
  lemma TreeIsRead(b: Body)
    requires IsBody(b, false)
    ensures Tokens(Written(b)) == Lexed(Preorder(Tree(b, 0)), None)
  {
    hide Tokens, Preorder, Tree, IsBody, Tile, IsWordAt, TagAt;
    var input := Written(b);
    hide Written;
    assert StandsAt(input, 0, input);
    NothingLeft(input);
    BodyTiles(input, 0, b, false, [], None);
    assert Preorder(Tree(b, 0)) + [] == Preorder(Tree(b, 0));
    TokensTile(input, Lexed(Preorder(Tree(b, 0)), None));
  }

  lemma NothingLeft(input: string)
    ensures Tile(input, |input|, DEFAULT, [], None)
  {
  }

  // ----- The shape of the tree

  lemma {:induction false} StripJoin(a: seq<Component>, b: seq<Component>)
    ensures StripAll(a + b) == StripAll(a) + StripAll(b)
  {
    hide Strip, StripAll;
    StripFirst(a);
    if a == [] {
      assert a + b == b;
    } else {
      StripJoin(a[1..], b);
      StripFirst(a + b);
      assert (a + b)[1..] == a[1..] + b && (a + b)[0] == a[0];
    }
  }

  lemma StripFirst(comps: seq<Component>)
    ensures comps == [] ==> StripAll(comps) == []
    ensures comps != [] ==> StripAll(comps) == [Strip(comps[0])] + StripAll(comps[1..])
  {
    hide Strip;
  }

  lemma {:induction false} AllClosedJoin(a: seq<Component>, b: seq<Component>)
    ensures AllClosed(a + b) <==> AllClosed(a) && AllClosed(b)
  {
    hide UnclosedIn;
    if a == [] {
      assert a + b == b;
    } else {
      AllClosedJoin(a[1..], b);
      assert (a + b)[1..] == a[1..] + b;
    }
  }

  lemma {:induction false} AreClosedJoin(a: seq<Component>, b: seq<Component>)
    ensures AreClosed(a + b) <==> AreClosed(a) && AreClosed(b)
  {
    hide IsClosed;
    if b == [] {
      assert a + b == a;
    } else {
      AreClosedJoin(a, b[..|b| - 1]);
      assert (a + b)[..|a + b| - 1] == a + b[..|b| - 1];
    }
  }

  /** A component in its place, once the tree is stripped of its end tags. */
  ghost predicate IsSound(comp: Component, stripped: Component) {
    IsClosed(comp) && UnclosedIn(comp) == None && Strip(comp) == stripped
  }

  ghost predicate AreSound(comps: seq<Component>, stripped: seq<Component>) {
    AreClosed(comps) && AllClosed(comps) && StripAll(comps) == stripped
  }

  lemma SoundOne(comp: Component, stripped: Component)
    requires IsSound(comp, stripped)
    ensures AreSound([comp], [stripped])
  {
    hide IsClosed, UnclosedIn, Strip;
    assert [comp][..0] == [] && [comp][1..] == [];
    assert AreClosed([comp]);
    assert FirstUnclosed([comp]) == None;
    assert StripAll([comp]) == [stripped] + [];
  }

  lemma SoundJoin(a: seq<Component>, a': seq<Component>, b: seq<Component>, b': seq<Component>)
    requires AreSound(a, a') && AreSound(b, b')
    ensures AreSound(a + b, a' + b')
  {
    hide AreClosed, AllClosed, StripAll;
    StripJoin(a, b);
    AllClosedJoin(a, b);
    AreClosedJoin(a, b);
  }

  lemma SoundNothing()
    ensures AreSound([], [])
  {
  }

  lemma SoundLeaf(comp: Component)
    requires comp.children == [] && !comp.tag.IsSectionBegin() && !comp.tag.IsSectionEnd()
    ensures IsSound(comp, comp)
  {
  }

  lemma {:induction false} SoundWords(text: string, at: nat)
    ensures AreSound(Words(text, at), Words(text, at))
    decreases |text|
  {
    hide WordLength, AreSound, IsSound;
    if text == "" {
      SoundNothing();
    } else {
      var n := WordLength(text);
      var word := Word(text[..n], at);
      SoundLeaf(word);
      SoundOne(word, word);
      SoundWords(text[n..], at + n);
      SoundJoin([word], [word], Words(text[n..], at + n), Words(text[n..], at + n));
    }
  }

  /** The template: the tree without end tags. */
  function BareItem(item: Item, at: nat): Component {
    match item
    case Leaf(_, _) => ItemTree(item, at)
    case Block(inverted, name, body) =>
      Component("", Tag(BlockKind(inverted), name), Bare(body, at + |Tagged(BlockKind(inverted), name)|), at)
  }

  function Bare(b: Body, at: nat): seq<Component> {
    match b
    case End(tail) => Words(tail, at)
    case Then(text, item, rest) =>
      Words(text, at) + [BareItem(item, at + |text|)] + Bare(rest, at + |text| + |ItemSource(item)|)
  }

  lemma {:induction false} SoundItem(item: Item, at: nat)
    ensures IsSound(ItemTree(item, at), BareItem(item, at))
    decreases item
  {
    hide IsSound, AreSound, Tree, Bare, Tagged, Written;
    match item
    case Leaf(style, name) => SoundLeaf(ItemTree(item, at));
    case Block(inverted, name, body) =>
      var from := at + |Tagged(BlockKind(inverted), name)|;
      SoundBody(body, from);
      SoundBlock(ItemTree(item, at), Tree(body, from), Bare(body, from), EndTag(name, from + |Written(body)|));
  }

  lemma SoundBlock(comp: Component, tree: seq<Component>, bare: seq<Component>, end: Component)
    requires comp.tag.IsSectionBegin() && comp.children == tree + [end] && AreSound(tree, bare)
    requires end.tag == Tag(SectionEnd, comp.tag.name) && end.children == []
    ensures IsSound(comp, comp.(children := bare))
  {
    assert comp.children[..|comp.children| - 1] == tree;
    hide AreClosed, FirstUnclosed, StripAll;
  }

  lemma {:induction false} SoundBody(b: Body, at: nat)
    ensures AreSound(Tree(b, at), Bare(b, at))
    decreases b
  {
    hide IsSound, AreSound, ItemTree, BareItem, Words, ItemSource;
    match b
    case End(tail) => SoundWords(tail, at);
    case Then(text, item, rest) =>
      var to, next := at + |text|, at + |text| + |ItemSource(item)|;
      SoundWords(text, at);
      SoundItem(item, to);
      SoundOne(ItemTree(item, to), BareItem(item, to));
      SoundJoin(Words(text, at), Words(text, at), [ItemTree(item, to)], [BareItem(item, to)]);
      SoundBody(rest, next);
      SoundJoin(Words(text, at) + [ItemTree(item, to)], Words(text, at) + [BareItem(item, to)],
                Tree(rest, next), Bare(rest, next));
  }

  /** A template parses to the tree that its sections make, whatever they hold. */
  lemma TemplateParsed(b: Body)
    requires IsBody(b, false)
    ensures Result(Written(b)) == Template(Bare(b, 0))
  {
    hide Tokens, Result, Tree, Bare, Written, IsBody, AreClosed, FirstUnclosed, StripAll, Preorder;
    TreeIsRead(b);
    SoundBody(b, 0);
    TemplateIs(Written(b), Bare(b, 0));
  }

  // ----- What the tree renders

  /** Two outputs that do the same to the line buffer, whatever it holds. */
  ghost predicate SameEffect(p: seq<Piece>, q: seq<Piece>) {
    forall r: State :: TakeAll(r, p) == TakeAll(r, q)
  }

  lemma EffectJoin(p: seq<Piece>, p': seq<Piece>, q: seq<Piece>, q': seq<Piece>)
    requires SameEffect(p, p') && SameEffect(q, q')
    ensures SameEffect(p + q, p' + q')
  {
    hide TakeAll;
    forall r: State
      ensures TakeAll(r, p + q) == TakeAll(r, p' + q')
    {
      TakeJoin(r, p, q);
      TakeJoin(r, p', q');
    }
  }

  /** The lines kept depend on the effect alone. */
  lemma EffectDecides(p: seq<Piece>, q: seq<Piece>)
    requires SameEffect(p, q)
    ensures Kept(Lines(p)) == Kept(Lines(q))
  {
    hide TakeAll, Lines, Kept;
    var start := State("", "", false);
    BufferIsLastLine(p);
    BufferIsLastLine(q);
    LastLineGoesOut(Lines(p), TakeAll(start, p));
    LastLineGoesOut(Lines(q), TakeAll(start, q));
  }

  lemma {:induction false} PiecesJoin(items: seq<Data>, a: seq<Component>, b: seq<Component>)
    requires items != []
    ensures Pieces(items, a + b) == Pieces(items, a) + Pieces(items, b)
  {
    hide PiecesOf, Pieces;
    if b == [] {
      assert a + b == a;
      PiecesOne(items, ROOT);
    } else {
      var front, last := b[..|b| - 1], b[|b| - 1];
      PiecesJoin(items, a, front);
      PiecesSnoc(items, a + front, last);
      PiecesSnoc(items, front, last);
      assert b == front + [last] && a + b == a + front + [last];
    }
  }

  lemma PiecesSnoc(items: seq<Data>, comps: seq<Component>, comp: Component)
    requires items != []
    ensures Pieces(items, comps + [comp]) == Pieces(items, comps) + PiecesOf(items, comp)
  {
    hide PiecesOf;
    assert (comps + [comp])[..|comps|] == comps;
  }

  lemma PiecesOne(items: seq<Data>, comp: Component)
    requires items != []
    ensures Pieces(items, [comp]) == PiecesOf(items, comp) && Pieces(items, []) == []
  {
    hide PiecesOf;
    assert [comp][..0] == [];
  }

  /** A word renders itself. */
  lemma WordPieces(items: seq<Data>, text: string, at: nat)
    requires items != []
    ensures Pieces(items, [Word(text, at)]) == [if IsNewline(Word(text, at)) then Newline(text) else Chars(text)]
  {
    PiecesOne(items, Word(text, at));
    hide IsNewline;
    assert Pieces(items, []) == [];
  }

  lemma TakeFirst(r: State, piece: Piece, rest: seq<Piece>)
    ensures TakeAll(r, [piece] + rest) == TakeAll(Take(r, piece), rest)
  {
    TakeJoin(r, [piece], rest);
    TakeOne(r, piece);
  }

  /** A stretch without white space goes into the line as it is. */
  lemma {:induction false} RunTaken(r: State, text: string, n: nat)
    requires n <= |text| && forall i :: 0 <= i < n ==> WhitespaceAt(text, i) == 0
    ensures TakeAll(r, TextPieces(text)) == TakeAll(r.(line := r.line + text[..n]), TextPieces(text[n..]))
    decreases n
  {
    hide TakeAll;
    if n == 0 {
      assert text[..0] == "" && r.line + "" == r.line && text[0..] == text;
    } else {
      assert WhitespaceAt(text, 0) == 0;
      var c := text[0];
      assert TextPieces(text) == [Chars([c])] + TextPieces(text[1..]);
      TakeFirst(r, Chars([c]), TextPieces(text[1..]));
      forall i | 0 <= i < n - 1
        ensures WhitespaceAt(text[1..], i) == 0
      {
        assert WhitespaceAt(text, i + 1) == 0;
        TailWhitespace(text, i);
      }
      hide TextPieces, WhitespaceAt;
      RunTaken(r.(line := r.line + [c]), text[1..], n - 1);
      assert r.line + [c] + text[1..][..n - 1] == r.line + text[..n];
      assert text[1..][n - 1..] == text[n..];
    }
  }

  lemma TailWhitespace(text: string, i: nat)
    requires i + 1 < |text|
    ensures WhitespaceAt(text[1..], i) == WhitespaceAt(text, i + 1)
  {
    StandsTail(text, i, "\r\n");
  }

  lemma StandsTail(text: string, i: nat, s: string)
    requires text != ""
    ensures StandsAt(text[1..], i, s) <==> StandsAt(text, i + 1, s)
  {
    if i + 1 + |s| <= |text| {
      assert text[1..][i..i + |s|] == text[i + 1..i + 1 + |s|];
    }
  }

  /** The first word of a text, and the rest. */
  lemma FirstTaken(r: State, text: string, at: nat)
    requires text != ""
    ensures var n := WordLength(text); var word := Word(text[..n], at);
            TakeAll(r, TextPieces(text)) ==
            TakeAll(Take(r, if IsNewline(word) then Newline(text[..n]) else Chars(text[..n])), TextPieces(text[n..]))
  {
    hide TakeAll;
    var n := WordLength(text);
    if WhitespaceAt(text, 0) > 0 {
      assert StandsAt(text, 0, "\r\n") ==> text[..2] == "\r\n";
      assert !StandsAt(text, 0, "\r\n") ==> text[..1] == [text[0]];
      TakeFirst(r, if IsNewline(Word(text[..n], at)) then Newline(text[..n]) else Chars(text[..n]),
                TextPieces(text[n..]));
    } else {
      RunTaken(r, text, n);
      assert text[..n][0] == text[0];
      assert !IsNewline(Word(text[..n], at));
    }
  }

  lemma {:induction false} WordsEffect(items: seq<Data>, text: string, at: nat)
    requires items != []
    ensures SameEffect(Pieces(items, Words(text, at)), TextPieces(text))
    decreases |text|
  {
    hide TakeAll, WordLength, TextPieces, IsNewline, Word;
    if text == "" {
      PiecesOne(items, ROOT);
      NoText();
    } else {
      var n := WordLength(text);
      var word, rest := Word(text[..n], at), Words(text[n..], at + n);
      WordsEffect(items, text[n..], at + n);
      WordPieces(items, text[..n], at);
      PiecesJoin(items, [word], rest);
      var piece := if IsNewline(word) then Newline(text[..n]) else Chars(text[..n]);
      forall r: State
        ensures TakeAll(r, Pieces(items, Words(text, at))) == TakeAll(r, TextPieces(text))
      {
        FirstTaken(r, text, at);
        TakeFirst(r, piece, Pieces(items, rest));
      }
    }
  }

  lemma NoText()
    ensures TextPieces("") == []
  {
  }

  lemma LeafEffect(items: seq<Data>, style: Style, name: string, at: nat)
    requires items != []
    ensures SameEffect(PiecesOf(items, ItemTree(Leaf(style, name), at)), [Chars(Value(items, style, name))])
  {
    hide Get, Escape, TakeAll;
    var comp, v := ItemTree(Leaf(style, name), at), Value(items, style, name);
    PiecesOne(items, ROOT);
    assert PiecesOf(items, comp) == Own(items, comp);
    assert Own(items, comp) == [Chars(v)] || (Own(items, comp) == [] && v == "");
    forall r: State
      ensures TakeAll(r, []) == TakeAll(r, [Chars("")])
    {
      TakeOne(r, Chars(""));
      TakeNone(r);
      assert r.line + "" == r.line;
    }
  }

  lemma {:induction false} ItemEffect(items: seq<Data>, item: Item, at: nat)
    requires items != []
    ensures SameEffect(PiecesOf(items, BareItem(item, at)), ItemPieces(items, item))
    decreases item, 0
  {
    hide SameEffect, Get, Section, EachItem, BlockPieces, ListPieces, Bare, Tagged, IsShown;
    match item
    case Leaf(style, name) => LeafEffect(items, style, name, at);
    case Block(inverted, name, body) =>
      var comp, from := BareItem(item, at), at + |Tagged(BlockKind(inverted), name)|;
      var v := Get(items, name);
      EffectSame([]);
      if v.None? {
        BlockEffect(items, comp, body, from);
      } else {
        BlockEffect([v.value] + items, comp, body, from);
        if v.value.List? {
          ListEffect(items, v.value.items, comp, body, from);
        }
      }
  }

  lemma EffectSame(p: seq<Piece>)
    ensures SameEffect(p, p)
  {
    hide TakeAll;
  }

  lemma {:induction false} BlockEffect(items: seq<Data>, comp: Component, body: Body, from: nat)
    requires items != [] && comp.children == Bare(body, from)
    ensures SameEffect(Section(items, comp), BlockPieces(items, body))
    decreases body, 1
  {
    hide SameEffect, Bare, Pieces, BodyPieces;
    BodyEffect(items, body, from);
    EffectSame([Mark]);
    EffectJoin([Mark], [Mark], Pieces(items, comp.children), BodyPieces(items, body));
    EffectJoin([Mark] + Pieces(items, comp.children), [Mark] + BodyPieces(items, body), [Mark], [Mark]);
  }

  lemma {:induction false} ListEffect(items: seq<Data>, list: seq<Data>, comp: Component, body: Body, from: nat)
    requires items != [] && comp.children == Bare(body, from)
    ensures SameEffect(EachItem(items, list, comp), ListPieces(items, list, body))
    decreases body, 2, |list|
  {
    hide SameEffect, Bare, Section, BlockPieces;
    if list == [] {
      EffectSame([]);
    } else {
      var front, inner := list[..|list| - 1], [list[|list| - 1]] + items;
      ListEffect(items, front, comp, body, from);
      BlockEffect(inner, comp, body, from);
      EffectJoin(EachItem(items, front, comp), ListPieces(items, front, body),
                 Section(inner, comp), BlockPieces(inner, body));
    }
  }

  lemma {:induction false} BodyEffect(items: seq<Data>, b: Body, at: nat)
    requires items != []
    ensures SameEffect(Pieces(items, Bare(b, at)), BodyPieces(items, b))
    decreases b, 0
  {
    hide SameEffect, Pieces, PiecesOf, TextPieces, ItemPieces, Words, BareItem, ItemSource;
    match b
    case End(tail) => WordsEffect(items, tail, at);
    case Then(text, item, rest) =>
      var words, comp := Words(text, at), BareItem(item, at + |text|);
      var more := Bare(rest, at + |text| + |ItemSource(item)|);
      WordsEffect(items, text, at);
      ItemEffect(items, item, at + |text|);
      BodyEffect(items, rest, at + |text| + |ItemSource(item)|);
      PiecesOne(items, comp);
      PiecesJoin(items, words, [comp]);
      PiecesJoin(items, words + [comp], more);
      EffectJoin(Pieces(items, words), TextPieces(text), PiecesOf(items, comp), ItemPieces(items, item));
      EffectJoin(Pieces(items, words) + PiecesOf(items, comp), TextPieces(text) + ItemPieces(items, item),
                 Pieces(items, more), BodyPieces(items, rest));
  }

  // ----- From the characters to the output

  lemma {:induction false} NoPartialWords(text: string, at: nat)
    ensures NoPartials(Words(text, at))
    decreases |text|
  {
    hide WordLength;
    if text != "" {
      NoPartialWords(text[WordLength(text)..], at + WordLength(text));
    }
  }

  lemma {:induction false} NoPartialBody(b: Body, at: nat)
    ensures NoPartials(Bare(b, at))
    decreases b
  {
    hide Words, ItemSource, Tagged;
    match b
    case End(tail) => NoPartialWords(tail, at);
    case Then(text, item, rest) =>
      NoPartialWords(text, at);
      if item.Block? {
        NoPartialBody(item.body, at + |text| + |Tagged(BlockKind(item.inverted), item.name)|);
      }
      NoPartialBody(rest, at + |text| + |ItemSource(item)|);
  }

  /** A template of texts, variables, comments and nested sections is valid, and renders the lines of what its parts
      put out, save the blank ones where only sections stand. */
  lemma TemplateRenders(b: Body, data: Data)
    requires IsBody(b, false)
    ensures var parsed := Result(Written(b));
            parsed.Template? && NoPartials(parsed.root) &&
            Rendering(data, parsed.root) == Kept(Lines(BodyPieces([data], b)))
  {
    hide Result, Written, IsBody, Bare, Pieces, BodyPieces, Lines, Kept, NoPartials, SameEffect;
    TemplateParsed(b);
    NoPartialBody(b, 0);
    BodyEffect([data], b, 0);
    EffectDecides(Pieces([data], Bare(b, 0)), BodyPieces([data], b));
  }

  // ----- A section alone

  /** How often a section puts out its body. */
  function Times(v: Option<Data>): nat {
    match v
    case None => 0
    case Some(False) => 0
    case Some(List(list)) => |list|
    case _ => 1
  }

  function Repeated(text: string, n: nat): string {
    if n == 0 then "" else Repeated(text, n - 1) + text
  }

  predicate OneLine(text: string) {
    '\r' !in text && '\n' !in text
  }

  lemma {:induction false} LineTaken(r: State, text: string)
    requires OneLine(text)
    ensures TakeAll(r, TextPieces(text)) == r.(line := r.line + text)
    decreases |text|
  {
    hide TakeAll;
    if text == "" {
      TakeNone(r);
      assert r.line + "" == r.line;
    } else {
      var c, rest := text[0], text[1..];
      FirstChar(text);
      hide TextPieces, OneLine;
      TakeFirst(r, Chars([c]), TextPieces(rest));
      LineTaken(r.(line := r.line + [c]), rest);
      assert r.line + [c] + rest == r.line + text;
    }
  }

  lemma FirstChar(text: string)
    requires text != "" && OneLine(text)
    ensures TextPieces(text) == [Chars([text[0]])] + TextPieces(text[1..]) && OneLine(text[1..])
  {
    assert text[0] in text;
    if StandsAt(text, 0, "\r\n") {
      StandsFirst(text, 0, "\r\n");
    }
    forall c | c in text[1..]
      ensures c in text
    {
    }
  }

  lemma BlockTaken(r: State, items: seq<Data>, text: string)
    requires items != [] && OneLine(text)
    ensures TakeAll(r, BlockPieces(items, End(text))) == r.(line := r.line + text, marked := true)
  {
    hide TakeAll, TextPieces;
    TakeJoin(r, [Mark] + TextPieces(text), [Mark]);
    TakeFirst(r, Mark, TextPieces(text));
    LineTaken(r.(marked := true), text);
    TakeOne(r.(line := r.line + text, marked := true), Mark);
  }

  lemma {:induction false} ListTaken(r: State, items: seq<Data>, list: seq<Data>, text: string)
    requires items != [] && OneLine(text)
    ensures TakeAll(r, ListPieces(items, list, End(text))) ==
            r.(line := r.line + Repeated(text, |list|), marked := r.marked || list != [])
  {
    hide TakeAll, BlockPieces;
    if list == [] {
      TakeNone(r);
      assert r.line + "" == r.line;
    } else {
      var front, inner := list[..|list| - 1], [list[|list| - 1]] + items;
      ListTaken(r, items, front, text);
      TakeJoin(r, ListPieces(items, front, End(text)), BlockPieces(inner, End(text)));
      BlockTaken(TakeAll(r, ListPieces(items, front, End(text))), inner, text);
      assert r.line + Repeated(text, |front|) + text == r.line + Repeated(text, |list|);
    }
  }

  /** What a section of one line of text leaves in the line buffer. */
  lemma SectionTaken(r: State, items: seq<Data>, inverted: bool, name: string, text: string)
    requires items != [] && OneLine(text)
    ensures var times := Times(Get(items, name)); var n := if !inverted then times else if times == 0 then 1 else 0;
            TakeAll(r, ItemPieces(items, Block(inverted, name, End(text)))) ==
            r.(line := r.line + Repeated(text, n), marked := r.marked || n > 0)
  {
    hide TakeAll, BlockPieces, ListPieces, Get;
    var v := Get(items, name);
    TakeNone(r);
    BlockTaken(r, items, text);
    assert r.line + "" == r.line && Repeated(text, 0) == "" && Repeated(text, 1) == "" + text == text;
    if v.Some? {
      BlockTaken(r, [v.value] + items, text);
      if v.value.List? {
        ListTaken(r, items, v.value.items, text);
      }
    }
  }

  lemma RepeatedBlank(text: string, n: nat)
    ensures Blank(text) ==> Blank(Repeated(text, n))
    ensures !Blank(text) && n > 0 ==> !Blank(Repeated(text, n))
  {
    if n > 0 {
      RepeatedBlank(text, n - 1);
      var front := Repeated(text, n - 1);
      if !Blank(text) {
        var k :| 0 <= k < |text| && text[k] != ' ' && text[k] != '\t';
        assert (front + text)[|front| + k] == text[k];
      }
    }
  }

  lemma SectionKept(items: seq<Data>, inverted: bool, name: string, text: string)
    requires items != [] && OneLine(text)
    ensures var times := Times(Get(items, name)); var n := if !inverted then times else if times == 0 then 1 else 0;
            Kept(Lines(BodyPieces(items, Then("", Block(inverted, name, End(text)), End(""))))) ==
            if Blank(text) then "" else Repeated(text, n)
  {
    var item, times := Block(inverted, name, End(text)), Times(Get(items, name));
    var n := if !inverted then times else if times == 0 then 1 else 0;
    var start := State("", "", false);
    NoText();
    assert BodyPieces(items, Then("", item, End(""))) == ItemPieces(items, item);
    SectionTaken(start, items, inverted, name, text);
    RepeatedBlank(text, n);
    assert Repeated(text, 0) == "" && "" + Repeated(text, n) == Repeated(text, n);
    hide TakeAll, Lines, ItemPieces, BodyPieces, Repeated, Times, Get, Blank;
    BufferIsLastLine(ItemPieces(items, item));
    LastLineGoesOut(Lines(ItemPieces(items, item)), TakeAll(start, ItemPieces(items, item)));
    hide Kept;
  }

  /** A section alone on its line puts out its text as often as the data says, and nothing when the text is blank. */
  lemma SectionRenders(inverted: bool, name: string, text: string, data: Data)
    requires IsName(name) && IsText(text) && OneLine(text)
    ensures var times := Times(Get([data], name)); var n := if !inverted then times else if times == 0 then 1 else 0;
            var parsed := Result(Tagged(BlockKind(inverted), name) + text + Tagged(SectionEnd, name));
            parsed.Template? && Rendering(data, parsed.root) == if Blank(text) then "" else Repeated(text, n)
  {
    var b := Then("", Block(inverted, name, End(text)), End(""));
    var source := Tagged(BlockKind(inverted), name) + text + Tagged(SectionEnd, name);
    var item := Block(inverted, name, End(text));
    WrittenAlone(item);
    assert ItemSource(item) == source;
    assert IsItem(item);
    AloneIsBody(item);
    hide Result, Written, Rendering, Tagged, BodyPieces, Lines, Kept, IsBody, Times, Repeated;
    TemplateRenders(b, data);
    SectionKept([data], inverted, name, text);
  }

  lemma WrittenAlone(item: Item)
    ensures Written(Then("", item, End(""))) == ItemSource(item)
  {
    hide ItemSource;
    assert "" + ItemSource(item) + "" == ItemSource(item);
  }

  lemma AloneIsBody(item: Item)
    requires IsItem(item)
    ensures IsBody(Then("", item, End("")), false)
  {
    hide IsItem;
    Nowhere();
  }

  lemma Nowhere()
    ensures IsText("") && Find("", "{{", 0) == -1
  {
    assert "" + "{{" == "{{" && "{{"[0..2] == "{{";
  }

  lemma LetterX()
    ensures IsName("s") && !Blank("x") && OneLine("x") && IsText("x")
  {
    assert "x"[0] == 'x';
    assert "x{{"[0..2][0] == 'x' && "x{{"[1..3] == "{{";
    assert "x" + "{{" == "x{{";
    FoundAt("x{{", "{{", 0, 1);
  }

  lemma SectionOfX()
    ensures Tagged(SectionBegin, "s") + "x" + Tagged(SectionEnd, "s") == "{{#s}}x{{/s}}"
    ensures Repeated("x", 1) == "x" && Repeated("x", 0) == ""
  {
    assert Tagged(SectionBegin, "s") == "{{#s}}" && Tagged(SectionEnd, "s") == "{{/s}}";
  }

  lemma MemberS(value: Data)
    ensures Get([Object(map["s" := value])], "s") == Some(value)
  {
    NoDotFound("s");
    InnermostWins(map["s" := value], [], "s");
    hide Get;
    assert [Object(map["s" := value])] + [] == [Object(map["s" := value])];
  }

  /** {{#s}}x{{/s}} under true and under false. */
  lemma TrueAndFalse(shown: bool)
    ensures var parsed := Result("{{#s}}x{{/s}}"); var data := Object(map["s" := if shown then True else False]);
            parsed.Template? && Rendering(data, parsed.root) == if shown then "x" else ""
  {
    hide Result, Rendering, Get, Find, Tagged, Repeated, IsText, IsName, Blank, OneLine;
    var value := if shown then True else False;
    LetterX();
    SectionOfX();
    MemberS(value);
    SectionRenders(false, "s", "x", Object(map["s" := value]));
  }

  // ----- Templates without sections

  predicate NoBlocks(b: Body) {
    b.End? || (b.item.Leaf? && NoBlocks(b.rest))
  }

  /** The text with the values in the places of the tags. */
  function Filled(data: Data, b: Body): string {
    match b
    case End(tail) => tail
    case Then(text, item, rest) =>
      text + (if item.Leaf? then Value([data], item.style, item.name) else "") + Filled(data, rest)
  }

  lemma {:induction false} TextJoined(text: string)
    ensures Joined(TextPieces(text)) == text
    ensures forall i :: 0 <= i < |TextPieces(text)| ==> !TextPieces(text)[i].Mark?
    decreases |text|
  {
    if text != "" {
      var n, first := FirstPiece(text);
      hide TextPieces, Joined;
      TextJoined(text[n..]);
      JoinedOne(first);
      JoinedJoin([first], TextPieces(text[n..]));
      assert text == text[..n] + text[n..];
    } else {
      NoText();
      JoinedOne(Mark);
    }
  }

  lemma FirstPiece(text: string) returns (n: nat, first: Piece)
    requires text != ""
    ensures 0 < n <= |text| && !first.Mark? && first.text == text[..n]
    ensures TextPieces(text) == [first] + TextPieces(text[n..])
  {
    n := if StandsAt(text, 0, "\r\n") then 2 else 1;
    first := TextPieces(text)[0];
    assert text[..1] == [text[0]];
    assert n == 2 ==> text[..2] == "\r\n";
  }

  lemma JoinedOne(piece: Piece)
    ensures Joined([piece]) == (if piece.Mark? then "" else piece.text) && Joined([]) == ""
  {
    assert [piece][..0] == [];
  }

  lemma {:induction false} BodyJoined(data: Data, b: Body)
    requires NoBlocks(b)
    ensures Joined(BodyPieces([data], b)) == Filled(data, b)
    ensures forall i :: 0 <= i < |BodyPieces([data], b)| ==> !BodyPieces([data], b)[i].Mark?
  {
    hide Joined, TextPieces, Value;
    match b
    case End(tail) => TextJoined(tail);
    case Then(text, item, rest) =>
      var pieces := ItemPieces([data], item);
      assert pieces == [Chars(Value([data], item.style, item.name))];
      TextJoined(text);
      BodyJoined(data, rest);
      JoinedOne(pieces[0]);
      JoinedJoin(TextPieces(text), pieces);
      JoinedJoin(TextPieces(text) + pieces, BodyPieces([data], rest));
  }

  /** Without sections a template renders its text with the values in the places of the tags. */
  lemma TemplateFilled(b: Body, data: Data)
    requires IsBody(b, false) && NoBlocks(b)
    ensures var parsed := Result(Written(b));
            parsed.Template? && NoPartials(parsed.root) && Rendering(data, parsed.root) == Filled(data, b)
  {
    hide Result, Written, IsBody, BodyPieces, Lines, Kept, NoPartials, Joined, Rendering, Filled;
    TemplateRenders(b, data);
    BodyJoined(data, b);
    NothingDropped(BodyPieces([data], b));
  }

  /** A template without a start delimiter is valid and renders to itself, whatever the data. */
  lemma PlainTemplate(input: string, data: Data)
    requires Find(input, DEFAULT.begin, 0) == -1
    ensures var parsed := Result(input);
            parsed.Template? && NoPartials(parsed.root) && Rendering(data, parsed.root) == input
  {
    hide Result, Rendering, Find, NoPartials;
    TemplateFilled(End(input), data);
  }
}
