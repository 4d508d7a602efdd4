// Rendering in src/common/mustache.hpp: a walk over the components with a stack of data
// and a line buffer that drops the lines where only sections stood.

module MustacheRenderer {
  import opened MustacheParser

  datatype Data = Object(members: map<string, Data>) | Str(text: string) | List(items: seq<Data>) | True | False
    | Invalid

  // ----- Escaping

  function EscapeChar(c: char): string {
    match c
    case '&' => "&amp;"
    case '<' => "&lt;"
    case '>' => "&gt;"
    case '\"' => "&quot;"
    case '\'' => "&apos;"
    case _ => [c]
  }

  function Escape(s: string): string {
    if s == "" then "" else Escape(s[..|s| - 1]) + EscapeChar(s[|s| - 1])
  }

  method HtmlEscape(s: string) returns (ret: string)
    ensures ret == Escape(s)
  {
    ret := "";
    var i := 0;
    while i < |s|
      invariant 0 <= i <= |s| && ret == Escape(s[..i])
    {
      assert s[..i + 1][..i] == s[..i];
      ret := ret + EscapeChar(s[i]);
      i := i + 1;
    }
    assert s[..|s|] == s;
  }

  /** Reads the five entities back. */
  function Unescape(s: string): string {
    if s == "" then ""
    else if "&amp;" <= s then "&" + Unescape(s[5..])
    else if "&lt;" <= s then "<" + Unescape(s[4..])
    else if "&gt;" <= s then ">" + Unescape(s[4..])
    else if "&quot;" <= s then "\"" + Unescape(s[6..])
    else if "&apos;" <= s then "'" + Unescape(s[6..])
    else [s[0]] + Unescape(s[1..])
  }

  lemma {:induction false} EscapeFront(s: string)
    requires s != ""
    ensures Escape(s) == EscapeChar(s[0]) + Escape(s[1..])
  {
    hide EscapeChar, Escape;
    var n := |s| - 1;
    EscapeSnoc(s);
    if n == 0 {
      assert s[..0] == "" && s[1..] == "";
      EscapeNothing();
    } else {
      var front, rest := s[..n], s[1..];
      EscapeFront(front);
      EscapeSnoc(rest);
      assert rest[..n - 1] == front[1..] && rest[n - 1] == s[n] && front[0] == s[0];
    }
  }

  lemma EscapeSnoc(s: string)
    requires s != ""
    ensures Escape(s) == Escape(s[..|s| - 1]) + EscapeChar(s[|s| - 1])
  {
    hide EscapeChar;
  }

  lemma EscapeNothing()
    ensures Escape("") == ""
  {
  }

  lemma UnescapeOther(c: char, s: string)
    requires c != '&'
    ensures Unescape([c] + s) == [c] + Unescape(s)
  {
    var t := [c] + s;
    assert t[1..] == s && t[0] == c;
    assert "&amp;"[0] == "&lt;"[0] == "&gt;"[0] == "&quot;"[0] == "&apos;"[0] == '&';
  }

  lemma UnescapeAmp(s: string)
    ensures Unescape("&amp;" + s) == "&" + Unescape(s)
  {
    assert ("&amp;" + s)[5..] == s;
  }

  lemma UnescapeLt(s: string)
    ensures Unescape("&lt;" + s) == "<" + Unescape(s)
  {
    assert ("&lt;" + s)[4..] == s && ("&lt;" + s)[1] == 'l';
  }

  lemma UnescapeGt(s: string)
    ensures Unescape("&gt;" + s) == ">" + Unescape(s)
  {
    assert ("&gt;" + s)[4..] == s && ("&gt;" + s)[1] == 'g';
  }

  lemma UnescapeQuot(s: string)
    ensures Unescape("&quot;" + s) == "\"" + Unescape(s)
  {
    assert ("&quot;" + s)[6..] == s && ("&quot;" + s)[1] == 'q';
  }

  lemma UnescapeApos(s: string)
    ensures Unescape("&apos;" + s) == "'" + Unescape(s)
  {
    assert ("&apos;" + s)[6..] == s && ("&apos;" + s)[1] == 'a' && ("&apos;" + s)[2] == 'p';
  }

  lemma UnescapeOne(c: char, s: string)
    ensures Unescape(EscapeChar(c) + s) == [c] + Unescape(s)
  {
    hide Unescape;
    match c
    case '&' => UnescapeAmp(s);
    case '<' => UnescapeLt(s);
    case '>' => UnescapeGt(s);
    case '\"' => UnescapeQuot(s);
    case '\'' => UnescapeApos(s);
    case _ => UnescapeOther(c, s);
  }

  /** Escaping loses nothing. */
  lemma {:induction false} UnescapeEscape(s: string)
    ensures Unescape(Escape(s)) == s
  {
    if s != "" {
      EscapeFront(s);
      UnescapeOne(s[0], Escape(s[1..]));
      UnescapeEscape(s[1..]);
    }
  }

  const SPECIAL := "<>\"'"

  /** Whether one of the five entities stands at a place. */
  predicate EntityAt(s: string, i: nat) {
    StandsAt(s, i, "&amp;") || StandsAt(s, i, "&lt;") || StandsAt(s, i, "&gt;") || StandsAt(s, i, "&quot;") ||
    StandsAt(s, i, "&apos;")
  }

  /** None of the four characters stays, and every ampersand begins an entity. */
  ghost predicate IsEscaped(s: string) {
    (forall i :: 0 <= i < |s| ==> s[i] !in SPECIAL) && (forall i :: 0 <= i < |s| && s[i] == '&' ==> EntityAt(s, i))
  }

  lemma CharEscaped(c: char)
    ensures IsEscaped(EscapeChar(c))
    ensures c != '&' && c !in SPECIAL ==> EscapeChar(c) == [c]
  {
    assert SPECIAL[0] == '<' && SPECIAL[1] == '>' && SPECIAL[2] == '\"' && SPECIAL[3] == '\'';
    assert c in SPECIAL <==> c == '<' || c == '>' || c == '\"' || c == '\'';
    assert "&amp;"[0..5] == "&amp;" && "&lt;"[0..4] == "&lt;" && "&gt;"[0..4] == "&gt;";
    assert "&quot;"[0..6] == "&quot;" && "&apos;"[0..6] == "&apos;";
  }

  lemma EntityStays(a: string, b: string, i: nat)
    requires EntityAt(a, i)
    ensures EntityAt(a + b, i)
  {
    StandsStill(a, b, i, "&amp;");
    StandsStill(a, b, i, "&lt;");
    StandsStill(a, b, i, "&gt;");
    StandsStill(a, b, i, "&quot;");
    StandsStill(a, b, i, "&apos;");
    hide StandsAt;
  }

  lemma StandsStill(a: string, b: string, i: nat, s: string)
    ensures StandsAt(a, i, s) ==> StandsAt(a + b, i, s)
    ensures StandsAt(b, i, s) ==> StandsAt(a + b, |a| + i, s)
  {
    if StandsAt(a, i, s) {
      assert (a + b)[i..i + |s|] == a[i..i + |s|];
    }
    if StandsAt(b, i, s) {
      assert (a + b)[|a| + i..|a| + i + |s|] == b[i..i + |s|];
    }
  }

  lemma EntityMoves(a: string, b: string, i: nat)
    requires EntityAt(b, i)
    ensures EntityAt(a + b, |a| + i)
  {
    StandsStill(a, b, i, "&amp;");
    StandsStill(a, b, i, "&lt;");
    StandsStill(a, b, i, "&gt;");
    StandsStill(a, b, i, "&quot;");
    StandsStill(a, b, i, "&apos;");
    hide StandsAt;
  }

  lemma EscapedJoin(a: string, b: string)
    requires IsEscaped(a) && IsEscaped(b)
    ensures IsEscaped(a + b)
  {
    hide EntityAt;
    forall i | 0 <= i < |a + b|
      ensures (a + b)[i] !in SPECIAL && ((a + b)[i] == '&' ==> EntityAt(a + b, i))
    {
      if i < |a| {
        if a[i] == '&' {
          EntityStays(a, b, i);
        }
      } else if b[i - |a|] == '&' {
        EntityMoves(a, b, i - |a|);
      }
    }
  }

  /** No special character is left by escaping, and text without any is left as it is. */
  lemma {:induction false} EscapeEscapes(s: string)
    ensures IsEscaped(Escape(s))
    ensures (forall i :: 0 <= i < |s| ==> s[i] != '&' && s[i] !in SPECIAL) ==> Escape(s) == s
  {
    hide EscapeChar, EntityAt, Escape;
    if s == "" {
      EscapeNothing();
    } else {
      var n := |s| - 1;
      EscapeSnoc(s);
      EscapeEscapes(s[..n]);
      CharEscaped(s[n]);
      EscapedJoin(Escape(s[..n]), EscapeChar(s[n]));
      assert s == s[..n] + [s[n]];
    }
  }

  lemma EscapeIsInjective(s: string, t: string)
    requires Escape(s) == Escape(t)
    ensures s == t
  {
    UnescapeEscape(s);
    UnescapeEscape(t);
  }

  // ----- Looking up names

  function Member(data: Data, name: string): Option<Data> {
    if data.Object? && name in data.members then Some(data.members[name]) else None
  }

  /** The pieces between separators; nothing after the last one is no piece. */
  function Split(s: string, delim: char): seq<string> {
    if s == "" then []
    else
      var n := Find(s, [delim], 0);
      if n == -1 then [s] else [s[..n]] + Split(s[n + 1..], delim)
  }

  function Path(data: Data, names: seq<string>): Option<Data>
    decreases |names|
  {
    if names == [] then Some(data)
    else match Member(data, names[0])
      case None => None
      case Some(member) => Path(member, names[1..])
  }

  /** The innermost data where the whole path leads somewhere. */
  function LookUpPath(items: seq<Data>, names: seq<string>): Option<Data> {
    if items == [] then None
    else
      var here := Path(items[0], names);
      if here.Some? then here else LookUpPath(items[1..], names)
  }

  function Get(items: seq<Data>, name: string): Option<Data>
    requires items != []
  {
    if name == "." then Some(items[0])
    else if Find(name, ".", 0) == -1 then LookUpPath(items, [name])
    else LookUpPath(items, Split(name, '.'))
  }

  // ----- What a template renders, piece by piece

  /** Text of a line, the end of a line, and the mark a section leaves where it begins and ends. */
  datatype Piece = Chars(text: string) | Newline(text: string) | Mark

  predicate IsNewline(comp: Component) {
    comp.text == "\r\n" || comp.text == "\n" || comp.text == "\r"
  }

  predicate IsShown(data: Data) {
    !data.False? && data != List([])
  }

  function Pieces(items: seq<Data>, comps: seq<Component>): seq<Piece>
    requires items != []
    decreases comps
  {
    if comps == [] then []
    else Pieces(items, comps[..|comps| - 1]) + PiecesOf(items, comps[|comps| - 1])
  }

  function PiecesOf(items: seq<Data>, comp: Component): seq<Piece>
    requires items != []
    decreases comp
  {
    if comp.tag.kind == SectionBegin then
      var v := Get(items, comp.tag.name);
      if v.None? || !IsShown(v.value) then []
      else if v.value.List? then EachItem(items, v.value.items, comp)
      else Section([v.value] + items, comp)
    else if comp.tag.kind == SectionBeginInverted then
      var v := Get(items, comp.tag.name);
      if v.None? then Section(items, comp)
      else if IsShown(v.value) then []
      else Section([v.value] + items, comp)
    else Own(items, comp) + Pieces(items, comp.children)
  }

  /** What a component that is no section renders itself. */
  function Own(items: seq<Data>, comp: Component): seq<Piece>
    requires items != []
  {
    match comp.tag.kind
    case Text => [if IsNewline(comp) then Newline(comp.text) else Chars(comp.text)]
    case Variable =>
      var v := Get(items, comp.tag.name);
      if v.Some? && v.value.Str? then [Chars(Escape(v.value.text))] else []
    case UnescapedVariable =>
      var v := Get(items, comp.tag.name);
      if v.Some? && v.value.Str? then [Chars(v.value.text)] else []
    case _ => []
  }

  /** The body of a section between its marks. */
  function Section(items: seq<Data>, comp: Component): seq<Piece>
    requires items != []
    decreases comp, 0
  {
    [Mark] + Pieces(items, comp.children) + [Mark]
  }

  function EachItem(items: seq<Data>, list: seq<Data>, comp: Component): seq<Piece>
    requires items != []
    decreases comp, 1, |list|
  {
    if list == [] then [] else EachItem(items, list[..|list| - 1], comp) + Section([list[|list| - 1]] + items, comp)
  }

  // ----- Lines

  datatype Line = Line(text: string, marked: bool, ending: string)

  predicate Blank(text: string) {
    forall i :: 0 <= i < |text| ==> text[i] == ' ' || text[i] == '\t'
  }

  /** The lines that the pieces make up, the last of them without an ending. */
  function Lines(pieces: seq<Piece>): (lines: seq<Line>)
    ensures |lines| > 0
  {
    if pieces == [] then [Line("", false, "")]
    else
      var lines := Lines(pieces[..|pieces| - 1]);
      var last := lines[|lines| - 1];
      match pieces[|pieces| - 1]
      case Chars(text) => lines[|lines| - 1 := last.(text := last.text + text)]
      case Newline(text) => lines[|lines| - 1 := last.(ending := text)] + [Line("", false, "")]
      case Mark => lines[|lines| - 1 := last.(marked := true)]
  }

  /** The lines in order, without the blank ones where a section began or ended. */
  function Kept(lines: seq<Line>): string {
    if lines == [] then ""
    else
      var last := lines[|lines| - 1];
      Kept(lines[..|lines| - 1]) + if last.marked && Blank(last.text) then "" else last.text + last.ending
  }

  function LineKept(line: Line): string {
    if line.marked && Blank(line.text) then "" else line.text + line.ending
  }

  lemma {:induction false} KeptJoin(a: seq<Line>, b: seq<Line>)
    ensures Kept(a + b) == Kept(a) + Kept(b)
  {
    hide Blank;
    if b == [] {
      assert a + b == a;
    } else {
      KeptJoin(a, b[..|b| - 1]);
      assert (a + b)[..|a + b| - 1] == a + b[..|b| - 1];
    }
  }

  /** A line with a character other than space and tab goes out as it is, and so does any line where no section
      begins or ends; a line of a section with nothing else on it goes out as nothing. */
  lemma LineGoesOut(a: seq<Line>, line: Line, b: seq<Line>)
    ensures (exists k :: 0 <= k < |line.text| && line.text[k] !in " \t") || !line.marked ==>
              Kept(a + [line] + b) == Kept(a) + line.text + line.ending + Kept(b)
    ensures (forall k :: 0 <= k < |line.text| ==> line.text[k] in " \t") && line.marked ==>
              Kept(a + [line] + b) == Kept(a) + Kept(b)
  {
    hide Kept, Blank;
    KeptBetween(a, line, b);
    BlankIs(line.text);
    assert Kept(a) + "" == Kept(a);
    assert Kept(a) + (line.text + line.ending) == Kept(a) + line.text + line.ending;
  }

  lemma KeptBetween(a: seq<Line>, line: Line, b: seq<Line>)
    ensures Kept(a + [line] + b) == Kept(a) + LineKept(line) + Kept(b)
  {
    hide Blank;
    KeptOne(line);
    hide Kept, LineKept;
    KeptJoin(a + [line], b);
    KeptJoin(a, [line]);
  }

  lemma KeptOne(line: Line)
    ensures Kept([line]) == LineKept(line)
  {
    hide Blank;
    assert [line][..0] == [];
  }

  lemma BlankIs(text: string)
    ensures Blank(text) <==> forall k :: 0 <= k < |text| ==> text[k] in " \t"
  {
    SpaceOrTab();
  }

  lemma SpaceOrTab()
    ensures forall c: char :: c in " \t" <==> c == ' ' || c == '\t'
  {
    assert " \t"[0] == ' ' && " \t"[1] == '\t';
  }

  function Rendering(data: Data, root: seq<Component>): string {
    Kept(Lines(Pieces([data], root)))
  }

  // ----- The line buffer

  /** What has gone out, and the line buffer. */
  datatype State = State(out: string, line: string, marked: bool)

  function Take(r: State, piece: Piece): State {
    match piece
    case Chars(text) => r.(line := r.line + text)
    case Newline(text) => State(if r.marked && Blank(r.line) then r.out else r.out + r.line + text, "", false)
    case Mark => r.(marked := true)
  }

  function TakeAll(r: State, pieces: seq<Piece>): State {
    if pieces == [] then r else Take(TakeAll(r, pieces[..|pieces| - 1]), pieces[|pieces| - 1])
  }

  lemma {:induction false} TakeJoin(r: State, a: seq<Piece>, b: seq<Piece>)
    ensures TakeAll(r, a + b) == TakeAll(TakeAll(r, a), b)
  {
    if b == [] {
      assert a + b == a;
    } else {
      TakeJoin(r, a, b[..|b| - 1]);
      assert (a + b)[..|a + b| - 1] == a + b[..|b| - 1];
    }
  }

  lemma TakeOne(r: State, piece: Piece)
    ensures TakeAll(r, [piece]) == Take(r, piece)
  {
    assert [piece][..0] == [];
  }

  /** The buffer holds the last line, and the lines before it have gone out. */
  lemma {:induction false} BufferIsLastLine(pieces: seq<Piece>)
    ensures var lines, r := Lines(pieces), TakeAll(State("", "", false), pieces);
            lines[|lines| - 1] == Line(r.line, r.marked, "") && Kept(lines[..|lines| - 1]) == r.out
  {
    if pieces != [] {
      var front := pieces[..|pieces| - 1];
      BufferIsLastLine(front);
      var before, lines := Lines(front), Lines(pieces);
      var n := |before| - 1;
      hide Blank, Lines;
      if pieces[|pieces| - 1].Newline? {
        assert lines[..|lines| - 1] == before[..n] + [lines[n]];
        assert (before[..n] + [lines[n]])[..n] == before[..n];
      } else {
        assert lines[..n] == before[..n];
      }
    }
  }

  // ----- The renderer

  predicate NoPartials(comps: seq<Component>) {
    forall i :: 0 <= i < |comps| ==> comps[i].tag.kind != Partial && NoPartials(comps[i].children)
  }

  class Renderer {
    var items: seq<Data>
    var out: string
    var line: string
    var marked: bool

    constructor (data: Data)
      ensures items == [data] && Reading() == State("", "", false)
    {
      items, out, line, marked := [data], "", "", false;
    }

    function Reading(): State
      reads this
    {
      State(out, line, marked)
    }

    /** The end of a line: a blank line where a section began or ended is dropped. */
    method RenderCurrentLine(ending: string)
      modifies `out, `line, `marked
      ensures Reading() == Take(old(Reading()), Newline(ending))
    {
      var output := true;
      if marked && Blank(line) {
        output := false;
      }
      if output {
        out := out + line;
        out := out + ending;
      }
      line, marked := "", false;
    }

    method RenderResult(text: string)
      modifies `line
      ensures Reading() == Take(old(Reading()), Chars(text))
    {
      line := line + text;
    }

    method Push(data: Data)
      modifies `items
      ensures items == [data] + old(items)
    {
      items := [data] + items;
    }

    method Pop()
      requires items != []
      modifies `items
      ensures items == old(items)[1..]
    {
      items := items[1..];
    }

    /** Renders components in order and leaves the stack of data as it was. */
    method WalkChildren(comps: seq<Component>)
      requires items != [] && NoPartials(comps)
      modifies this
      ensures items == old(items)
      ensures Reading() == TakeAll(old(Reading()), Pieces(items, comps))
      decreases comps
    {
      hide Take, PiecesOf, TakeAll;
      ghost var r := Reading();
      var i := 0;
      TakeNone(r);
      while i < |comps|
        invariant 0 <= i <= |comps| && items == old(items)
        invariant Reading() == TakeAll(r, Pieces(items, comps[..i]))
      {
        assert comps[..i + 1][..i] == comps[..i];
        RenderComponent(comps[i]);
        TakeJoin(r, Pieces(items, comps[..i]), PiecesOf(items, comps[i]));
        i := i + 1;
      }
      assert comps[..i] == comps;
    }

    method RenderComponent(comp: Component)
      requires items != [] && comp.tag.kind != Partial && NoPartials(comp.children)
      modifies this
      ensures items == old(items)
      ensures Reading() == TakeAll(old(Reading()), PiecesOf(items, comp))
      decreases comp
    {
      hide Take, TakeAll, Get, Section, EachItem, NoPartials;
      ghost var r := Reading();
      TakeNone(r);
      if comp.tag.kind == SectionBegin {
        var v := Get(items, comp.tag.name);
        if v.Some? && IsShown(v.value) {
          RenderSection(comp, v);
        }
      } else if comp.tag.kind == SectionBeginInverted {
        var v := Get(items, comp.tag.name);
        if v.None? || !IsShown(v.value) {
          RenderSection(comp, v);
        }
      } else {
        RenderOwn(comp);
        WalkChildren(comp.children);
        TakeJoin(r, Own(items, comp), Pieces(items, comp.children));
      }
    }

    method RenderOwn(comp: Component)
      requires items != [] && comp.tag.kind != Partial
      modifies `out, `line, `marked
      ensures Reading() == TakeAll(old(Reading()), Own(items, comp))
    {
      hide Take, TakeAll, Get;
      ghost var r := Reading();
      TakeNone(r);
      if comp.tag.kind == Text {
        if IsNewline(comp) {
          RenderCurrentLine(comp.text);
          TakeOne(r, Newline(comp.text));
        } else {
          RenderResult(comp.text);
          TakeOne(r, Chars(comp.text));
        }
      } else if comp.tag.kind == Variable || comp.tag.kind == UnescapedVariable {
        var v := Get(items, comp.tag.name);
        if v.Some? && v.value.Str? {
          var text := v.value.text;
          if comp.tag.kind == Variable {
            text := HtmlEscape(v.value.text);
          }
          RenderResult(text);
          TakeOne(r, Chars(text));
        }
      }
    }

    /** Renders the body of a section once for each item of a list, else once. */
    method RenderSection(comp: Component, v: Option<Data>)
      requires items != [] && NoPartials(comp.children)
      modifies this
      ensures items == old(items)
      ensures Reading() == TakeAll(old(Reading()),
                                   if v.None? then Section(items, comp)
                                   else if v.value.List? && v.value.items != []
                                     then EachItem(items, v.value.items, comp)
                                   else Section([v.value] + items, comp))
      decreases comp, 2
    {
      hide Take, TakeAll, Section, NoPartials;
      if v.Some? && v.value.List? && v.value.items != [] {
        var list := v.value.items;
        ghost var r := Reading();
        TakeNone(r);
        var i := 0;
        while i < |list|
          invariant 0 <= i <= |list| && items == old(items)
          invariant Reading() == TakeAll(r, EachItem(items, list[..i], comp))
        {
          Push(list[i]);
          assert list[..i + 1][..i] == list[..i];
          RenderBody(comp);
          TakeJoin(r, EachItem(old(items), list[..i], comp), Section(items, comp));
          Pop();
          i := i + 1;
        }
        assert list[..i] == list;
      } else if v.Some? {
        Push(v.value);
        RenderBody(comp);
        Pop();
      } else {
        RenderBody(comp);
      }
    }

    method RenderBody(comp: Component)
      requires items != [] && NoPartials(comp.children)
      modifies this
      ensures items == old(items)
      ensures Reading() == TakeAll(old(Reading()), Section(items, comp))
      decreases comp, 1
    {
      hide TakeAll;
      ghost var r := Reading();
      marked := true;
      TakeOne(r, Mark);
      WalkChildren(comp.children);
      TakeJoin(r, [Mark], Pieces(items, comp.children));
      ghost var q := Reading();
      marked := true;
      TakeOne(q, Mark);
      TakeJoin(r, [Mark] + Pieces(items, comp.children), [Mark]);
    }
  }

  lemma TakeNone(r: State)
    ensures TakeAll(r, []) == r
  {
  }

  /** Renders a template with data. */
  method Render(data: Data, root: seq<Component>) returns (text: string)
    requires NoPartials(root)
    ensures text == Rendering(data, root)
  {
    hide Take, TakeAll, Lines, Pieces, NoPartials;
    var renderer := new Renderer(data);
    renderer.WalkChildren(root);
    BufferIsLastLine(Pieces([data], root));
    LastLineGoesOut(Lines(Pieces([data], root)), renderer.Reading());
    renderer.RenderCurrentLine("");
    text := renderer.out;
  }

  lemma LastLineGoesOut(lines: seq<Line>, r: State)
    requires lines != [] && lines[|lines| - 1] == Line(r.line, r.marked, "") && Kept(lines[..|lines| - 1]) == r.out
    ensures Take(r, Newline("")).out == Kept(lines)
  {
  }

  // ----- What a template means

  /** A section over a list renders its body for every item in order: two lists one after the other render as one. */
  lemma {:induction false} ItemsInOrder(items: seq<Data>, a: seq<Data>, b: seq<Data>, comp: Component)
    requires items != []
    ensures EachItem(items, a + b, comp) == EachItem(items, a, comp) + EachItem(items, b, comp)
    decreases |b|
  {
    hide Section;
    if b == [] {
      assert a + b == a;
    } else {
      ItemsInOrder(items, a, b[..|b| - 1], comp);
      assert (a + b)[..|a + b| - 1] == a + b[..|b| - 1];
    }
  }

  function Shown(piece: Piece): string {
    if piece.Mark? then "" else piece.text
  }

  /** The pieces put together. */
  function Joined(pieces: seq<Piece>): string {
    if pieces == [] then ""
    else
      var last := pieces[|pieces| - 1];
      Joined(pieces[..|pieces| - 1]) + Shown(last)
  }

  lemma {:induction false} UnmarkedBuffer(pieces: seq<Piece>)
    requires forall i :: 0 <= i < |pieces| ==> !pieces[i].Mark?
    ensures var r := TakeAll(State("", "", false), pieces); !r.marked && r.out + r.line == Joined(pieces)
  {
    hide Blank;
    if pieces != [] {
      UnmarkedBuffer(pieces[..|pieces| - 1]);
    }
  }

  /** Without sections the line buffer is transparent: everything goes out as it comes. */
  lemma NothingDropped(pieces: seq<Piece>)
    requires forall i :: 0 <= i < |pieces| ==> !pieces[i].Mark?
    ensures Kept(Lines(pieces)) == Joined(pieces)
  {
    UnmarkedBuffer(pieces);
    BufferIsLastLine(pieces);
    LastLineGoesOut(Lines(pieces), TakeAll(State("", "", false), pieces));
    hide Lines, TakeAll, Joined, Kept;
  }

  lemma JoinedSnoc(pieces: seq<Piece>, piece: Piece)
    ensures Joined(pieces + [piece]) == Joined(pieces) + Shown(piece) && Joined([]) == ""
  {
    assert (pieces + [piece])[..|pieces|] == pieces;
  }

  lemma {:induction false} JoinedJoin(a: seq<Piece>, b: seq<Piece>)
    ensures Joined(a + b) == Joined(a) + Joined(b)
  {
    hide Joined, Shown;
    if b == [] {
      assert a + b == a;
      JoinedSnoc([], Mark);
    } else {
      var front, last := b[..|b| - 1], b[|b| - 1];
      JoinedJoin(a, front);
      JoinedSnoc(a + front, last);
      JoinedSnoc(front, last);
      assert b == front + [last] && a + b == a + front + [last];
    }
  }
}
