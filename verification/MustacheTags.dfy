// What the tags of src/common/mustache.hpp mean: from the characters of a tag to the text
// that it renders.

module MustacheTags {
  import opened MustacheParser
  import opened MustacheRenderer

  /** A name that stands in a tag as it is: no closing brace, no space at its ends. */
  predicate IsName(name: string) {
    name != "" && '}' !in name && !IsSpace(name[0]) && !IsSpace(name[|name| - 1])
  }

  lemma FoundAt(input: string, s: string, from: nat, at: nat)
    requires from <= at && StandsAt(input, at, s) && forall i :: from <= i < at ==> !StandsAt(input, i, s)
    ensures Find(input, s, from) == at
  {
  }

  lemma StandsFirst(input: string, at: nat, s: string)
    requires s != "" && StandsAt(input, at, s)
    ensures input[at] == s[0]
  {
  }

  lemma TrimName(s: string)
    requires s != "" && !IsSpace(s[0]) && !IsSpace(s[|s| - 1])
    ensures Trim(s) == s
  {
  }

  predicate IsBlank(s: string) {
    forall i :: 0 <= i < |s| ==> IsSpace(s[i])
  }

  lemma {:induction false} TrimFrontBlank(front: string, s: string)
    requires IsBlank(front) && s != "" && !IsSpace(s[0])
    ensures TrimFront(front + s) == s
  {
    hide IsSpace;
    if front == "" {
      assert front + s == s;
    } else {
      assert (front + s)[0] == front[0];
      TrimFrontBlank(front[1..], s);
      assert (front + s)[1..] == front[1..] + s;
    }
  }

  lemma {:induction false} TrimBackBlank(s: string, back: string)
    requires IsBlank(back) && s != "" && !IsSpace(s[|s| - 1])
    ensures TrimBack(s + back) == s
  {
    hide IsSpace;
    if back == "" {
      assert s + back == s;
    } else {
      var n := |back| - 1;
      assert (s + back)[|s| + n] == back[n];
      TrimBackBlank(s, back[..n]);
      assert (s + back)[..|s| + n] == s + back[..n];
    }
  }

  /** Trimming takes off exactly the white space around a text. */
  lemma TrimBlank(front: string, s: string, back: string)
    requires IsBlank(front) && IsBlank(back) && s != "" && !IsSpace(s[0]) && !IsSpace(s[|s| - 1])
    ensures Trim(front + s + back) == s
  {
    hide IsSpace;
    assert front + s + back == front + (s + back);
    TrimFrontBlank(front, s + back);
    TrimBackBlank(s, back);
  }

  lemma {:induction false} FoundNot(s: string, c: char, from: nat, at: nat)
    requires from <= at < |s| && s[at] != c && forall i :: from <= i < at ==> s[i] == c
    ensures FindNot(s, c, from) == at
    decreases at - from
  {
    if from < at {
      FoundNot(s, c, from + 1, at);
    }
  }

  lemma CharFound(s: string, c: char, at: nat)
    requires at < |s| && s[at] == c && forall i :: 0 <= i < at ==> s[i] != c
    ensures Find(s, [c], 0) == at
  {
    forall i | 0 <= i < at
      ensures !StandsAt(s, i, [c])
    {
      if StandsAt(s, i, [c]) {
        StandsFirst(s, i, [c]);
      }
    }
    FoundAt(s, [c], 0, at);
  }

  /** Where the space after the first delimiter and the second delimiter are found. */
  lemma BothFound(begin: string, spaces: string, end: string)
    requires IsSetDelimiterValid(begin) && end != "" && end[0] != ' '
    requires spaces != "" && forall i :: 0 <= i < |spaces| ==> spaces[i] == ' '
    ensures var inner := begin + spaces + end;
            Find(inner, " ", 0) == |begin| && FindNot(inner, ' ', |begin| + 1) == |begin| + |spaces|
  {
    SpaceIsSpace();
    hide IsSpace, Find, FindNot;
    var inner, p := begin + spaces + end, |begin|;
    forall i | 0 <= i < p
      ensures inner[i] != ' '
    {
      assert inner[i] == begin[i];
    }
    assert inner[p] == spaces[0];
    CharFound(inner, ' ', p);
    forall i | p + 1 <= i < p + |spaces|
      ensures inner[i] == ' '
    {
      assert inner[i] == spaces[i - p];
    }
    assert inner[p + |spaces|] == end[0];
    FoundNot(inner, ' ', p + 1, p + |spaces|);
  }

  /** Two delimiters with one space or more between them and white space around are read as those two. */
  lemma SetDelimiterRead(d: Delimiters, front: string, spaces: string, back: string)
    requires d.begin != "" && d.end != "" && IsSetDelimiterValid(d.begin) && IsSetDelimiterValid(d.end)
    requires IsBlank(front) && IsBlank(back) && spaces != "" && forall i :: 0 <= i < |spaces| ==> spaces[i] == ' '
    ensures ParseSetDelimiterTag("=" + front + (d.begin + spaces + d.end) + back + "=") == Some(d)
  {
    SpaceIsSpace();
    hide IsSpace, IsBlank, Trim, Find, FindNot;
    var inner, p := d.begin + spaces + d.end, |d.begin|;
    var contents := "=" + front + inner + back + "=";
    assert contents[1..|contents| - 1] == front + inner + back;
    assert !IsSpace(d.begin[0]) && !IsSpace(d.end[|d.end| - 1]) && d.end[0] != ' ';
    TrimBlank(front, inner, back);
    BothFound(d.begin, spaces, d.end);
    assert inner[..p] == d.begin && inner[p + |spaces|..] == d.end;
  }

  lemma SpaceIsSpace()
    ensures IsSpace(' ')
  {
  }

  /** The first end delimiter after text without closing braces is the one that follows it. */
  lemma EndFound(front: string, text: string, end: string, rest: string)
    requires '}' !in text && end != "" && end[0] == '}'
    ensures Find(front + text + end + rest, end, |front|) == |front| + |text|
    ensures (front + text + end + rest)[|front|..|front| + |text|] == text
  {
    var input, at := front + text + end + rest, |front| + |text|;
    assert input[at..at + |end|] == end;
    forall i | |front| <= i < at
      ensures !StandsAt(input, i, end)
    {
      assert input[i] == text[i - |front|] && text[i - |front|] in text;
      if StandsAt(input, i, end) {
        StandsFirst(input, i, end);
      }
    }
    FoundAt(input, end, |front|, at);
  }

  /** The characters after the start delimiter that give a tag its type. */
  function Sigil(kind: TagType): string {
    match kind
    case SectionBegin => "#"
    case SectionBeginInverted => "^"
    case SectionEnd => "/"
    case Partial => ">"
    case UnescapedVariable => "&"
    case Comment => "!"
    case _ => ""
  }

  predicate HasSigil(kind: TagType) {
    kind != Text && kind != Variable && kind != SetDelimiter
  }

  /** A tag whose contents go on to the end delimiter. */
  lemma TagIs(input: string, at: nat, contents: string)
    requires StandsAt(input, at, "{{") && at + 2 < |input| && input[at + 2] != '{'
    requires StandsAt(input, at + 2, contents) && Find(input, "}}", at + 2) == at + 2 + |contents|
    requires Trim(contents) == contents && contents != "" && contents[0] != '='
    ensures TagAt(input, at, DEFAULT) ==
            Closed(Component("", ParseTagContents(false, contents), [], at), at + |contents| + 4, DEFAULT)
  {
    hide Find, Trim, ParseTagContents, ParseSetDelimiterTag;
    assert input[at + 2..at + 2 + |contents|] == contents;
    hide StandsAt;
  }

  lemma TripleIs(input: string, at: nat, contents: string)
    requires StandsAt(input, at, "{{") && at + 2 < |input| && input[at + 2] == '{'
    requires StandsAt(input, at + 3, contents) && Find(input, "}}}", at + 3) == at + 3 + |contents|
    requires Trim(contents) == contents && contents != "" && contents[0] != '='
    ensures TagAt(input, at, DEFAULT) ==
            Closed(Component("", ParseTagContents(true, contents), [], at), at + |contents| + 6, DEFAULT)
  {
    hide Find, Trim, ParseTagContents, ParseSetDelimiterTag;
    assert input[at + 3..at + 3 + |contents|] == contents;
    hide StandsAt;
  }

  /** A tag with delimiters around its contents, after a front and before a rest. */
  lemma TagHolds(front: string, contents: string, rest: string)
    requires '}' !in contents && contents != "" && contents[0] != '{' && contents[0] != '='
    requires !IsSpace(contents[0]) && !IsSpace(contents[|contents| - 1])
    ensures var input, at := front + "{{" + contents + "}}" + rest, |front|;
            StandsAt(input, at, DEFAULT.begin) &&
            TagAt(input, at, DEFAULT) ==
            Closed(Component("", ParseTagContents(false, contents), [], at), at + |contents| + 4, DEFAULT)
  {
    hide Find, Trim, TagAt, ParseTagContents, IsSpace;
    var input, at := front + "{{" + contents + "}}" + rest, |front|;
    assert input[at..at + 2] == "{{";
    assert input[at + 2] == contents[0];
    EndFound(front + "{{", contents, "}}", rest);
    TrimName(contents);
    TagIs(input, at, contents);
  }

  /** A tag with a sigil is read with its type and its name, wherever it stands. */
  lemma TagRead(front: string, kind: TagType, name: string, rest: string)
    requires HasSigil(kind) && IsName(name)
    ensures var input, at := front + "{{" + (Sigil(kind) + name) + "}}" + rest, |front|;
            StandsAt(input, at, DEFAULT.begin) &&
            TagAt(input, at, DEFAULT) == Closed(Component("", Tag(kind, name), [], at), at + |name| + 5, DEFAULT)
  {
    hide StandsAt, TagAt, Trim;
    var contents := Sigil(kind) + name;
    assert contents[1..] == name && contents[0] == Sigil(kind)[0];
    TrimName(name);
    TagHolds(front, contents, rest);
  }

  predicate IsPlainName(name: string) {
    IsName(name) && name[0] !in "#^/>&!={"
  }

  /** A tag without a sigil is a variable. */
  lemma VariableRead(front: string, name: string, rest: string)
    requires IsPlainName(name)
    ensures var input, at := front + "{{" + name + "}}" + rest, |front|;
            StandsAt(input, at, DEFAULT.begin) &&
            TagAt(input, at, DEFAULT) == Closed(Component("", Tag(Variable, name), [], at), at + |name| + 4, DEFAULT)
  {
    hide StandsAt, TagAt;
    NoSigil(name[0]);
    TagHolds(front, name, rest);
  }

  lemma NoSigil(c: char)
    requires c !in "#^/>&!={"
    ensures c != '#' && c != '^' && c != '/' && c != '>' && c != '&' && c != '!' && c != '=' && c != '{'
  {
    var s := "#^/>&!={";
    assert s[0] == '#' && s[1] == '^' && s[2] == '/' && s[3] == '>' && s[4] == '&' && s[5] == '!' && s[6] == '=' &&
           s[7] == '{';
  }

  /** Three braces make an unescaped variable. */
  lemma TripleRead(front: string, name: string, rest: string)
    requires IsName(name) && name[0] != '='
    ensures var input, at := front + "{{{" + name + "}}}" + rest, |front|;
            StandsAt(input, at, DEFAULT.begin) &&
            TagAt(input, at, DEFAULT) ==
              Closed(Component("", Tag(UnescapedVariable, name), [], at), at + |name| + 6, DEFAULT)
  {
    hide Find, Trim, TagAt, IsSpace;
    var input, at := front + "{{{" + name + "}}}" + rest, |front|;
    assert input[at..at + 2] == "{{";
    assert input[at + 2] == '{';
    EndFound(front + "{{{", name, "}}}", rest);
    TrimName(name);
    TripleIs(input, at, name);
  }

  // ----- Sections and names

  lemma SectionShows(items: seq<Data>, list: seq<Data>, comp: Component)
    requires items != []
    ensures Section(items, comp) != [] && (list != [] ==> EachItem(items, list, comp) != [])
  {
    hide Pieces;
    assert Section(items, comp)[0] == Mark;
    if list != [] {
      var last := Section([list[|list| - 1]] + items, comp);
      assert last[0] == Mark;
      assert EachItem(items, list, comp)[|EachItem(items, list[..|list| - 1], comp)|] == Mark;
    }
  }

  /** What the children of a section put out, between the marks that it leaves. */
  function Marked(items: seq<Data>, children: seq<Component>): seq<Piece>
    requires items != []
  {
    [Mark] + Pieces(items, children) + [Mark]
  }

  /** The same for every item of a list in order, the item in front of the data. */
  function ForEach(items: seq<Data>, list: seq<Data>, children: seq<Component>): seq<Piece>
    requires items != []
  {
    if list == [] then [] else Marked([list[0]] + items, children) + ForEach(items, list[1..], children)
  }

  lemma {:induction false} ForEachIs(items: seq<Data>, list: seq<Data>, comp: Component)
    requires items != []
    ensures EachItem(items, list, comp) == ForEach(items, list, comp.children)
  {
    hide Pieces, EachItem;
    if list == [] {
      NoItems(items, comp);
    } else {
      ItemsInOrder(items, [list[0]], list[1..], comp);
      OneItem(items, list[0], comp);
      ForEachIs(items, list[1..], comp);
      assert list == [list[0]] + list[1..];
    }
  }

  lemma NoItems(items: seq<Data>, comp: Component)
    requires items != []
    ensures EachItem(items, [], comp) == []
  {
  }

  lemma OneItem(items: seq<Data>, item: Data, comp: Component)
    requires items != []
    ensures EachItem(items, [item], comp) == Marked([item] + items, comp.children)
  {
    hide Pieces;
    NoItems(items, comp);
    assert [item][..0] == [];
  }

  /** Which sections render is settled by the data that the name leads to: nothing, false and the empty list hide a
      section and show an inverted one; true, a string, an object and a list with items do the opposite. */
  lemma SectionUnder(items: seq<Data>, section: Component)
    requires items != [] && section.tag.kind == SectionBegin
    ensures var inverted := section.(tag := Tag(SectionBeginInverted, section.tag.name));
            var plain, opposite := PiecesOf(items, section), PiecesOf(items, inverted);
            var v, body := Get(items, section.tag.name), section.children;
            if v == None then plain == [] && opposite == Marked(items, body)
            else if v.value == False || v.value == List([]) then
              plain == [] && opposite == Marked([v.value] + items, body)
            else if v.value.List? then plain == ForEach(items, v.value.items, body) && opposite == []
            else plain == Marked([v.value] + items, body) && opposite == []
  {
    hide Get, Pieces, EachItem;
    var v := Get(items, section.tag.name);
    if v.Some? && v.value.List? {
      ForEachIs(items, v.value.items, section);
    }
  }

  /** Of a section and its inverted twin exactly one renders, whatever the data. */
  lemma ExactlyOneRenders(items: seq<Data>, section: Component)
    requires items != [] && section.tag.kind == SectionBegin
    ensures var inverted := section.(tag := Tag(SectionBeginInverted, section.tag.name));
            PiecesOf(items, section) == [] <==> PiecesOf(items, inverted) != []
  {
    hide Get, Section, EachItem;
    var inverted := section.(tag := Tag(SectionBeginInverted, section.tag.name));
    var v := Get(items, section.tag.name);
    SectionShows(items, [], inverted);
    if v.Some? {
      SectionShows([v.value] + items, [], section);
      SectionShows([v.value] + items, [], inverted);
      if v.value.List? {
        SectionShows(items, v.value.items, section);
      }
    }
  }

  /** The innermost data that has a name hides the others. */
  lemma InnermostWins(members: map<string, Data>, items: seq<Data>, name: string)
    requires name in members && name != "." && Find(name, ".", 0) == -1
    ensures Get([Object(members)] + items, name) == Some(members[name])
  {
    hide Find;
    assert [name][1..] == [];
    assert Path(Object(members), [name]) == Path(members[name], []) == Some(members[name]);
    assert ([Object(members)] + items)[0] == Object(members);
  }

  /** Data without a name lets the search go on outwards. */
  lemma SearchGoesOn(data: Data, items: seq<Data>, name: string)
    requires items != [] && Member(data, name) == None && name != "." && Find(name, ".", 0) == -1
    ensures Get([data] + items, name) == Get(items, name)
  {
    hide Find;
    assert ([data] + items)[1..] == items;
  }

  // ----- Dotted names

  predicate DotFree(parts: seq<string>) {
    forall i :: 0 <= i < |parts| ==> '.' !in parts[i]
  }

  /** The parts with a dot between each two. */
  function Dotted(parts: seq<string>): string
    requires parts != []
  {
    if |parts| == 1 then parts[0] else parts[0] + "." + Dotted(parts[1..])
  }

  lemma NoDotFound(part: string)
    requires '.' !in part
    ensures Find(part, ".", 0) == -1
  {
    forall i | 0 <= i < |part| + 1
      ensures !StandsAt(part, i, ".")
    {
      assert i < |part| ==> part[i] in part;
    }
  }

  lemma DotFound(part: string, rest: string)
    requires '.' !in part
    ensures var name := part + "." + rest;
            Find(name, ".", 0) == |part| && name[..|part|] == part && name[|part| + 1..] == rest
  {
    var name := part + "." + rest;
    forall i | 0 <= i < |part|
      ensures !StandsAt(name, i, ".")
    {
      assert name[i] == part[i] && part[i] in part;
    }
    FoundAt(name, ".", 0, |part|);
  }

  /** Splitting at the dots gives the parts back, except for an empty one at the end. */
  lemma {:induction false} SplitDotted(parts: seq<string>)
    requires parts != [] && DotFree(parts)
    ensures var n := |parts| - 1; Split(Dotted(parts), '.') == if parts[n] == "" then parts[..n] else parts
  {
    hide Find;
    if |parts| == 1 {
      NoDotFound(parts[0]);
    } else {
      SplitDotted(parts[1..]);
      DotFound(parts[0], Dotted(parts[1..]));
      assert parts == [parts[0]] + parts[1..];
    }
  }

  /** A dotted name is looked up part by part, however many parts it has. */
  lemma DottedName(items: seq<Data>, parts: seq<string>)
    requires items != [] && parts != [] && DotFree(parts) && parts[|parts| - 1] != ""
    ensures Get(items, Dotted(parts)) == LookUpPath(items, parts)
  {
    hide Find, Split, LookUpPath;
    SplitDotted(parts);
    if |parts| == 1 {
      NoDotFound(parts[0]);
      assert parts == [parts[0]] && '.' in ".";
    } else {
      DotFound(parts[0], Dotted(parts[1..]));
      NotEmpty(parts[1..]);
    }
  }

  lemma {:induction false} NotEmpty(parts: seq<string>)
    requires parts != [] && parts[|parts| - 1] != ""
    ensures Dotted(parts) != ""
  {
  }
}
