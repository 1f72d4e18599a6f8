/**
 What a getprop-style configuration file means: key=value pairs one per line, comment lines
 and blank lines skipped, blanks around keys and values ignored, the first match wins.
 */
module ConfigText {

  const NUL := '\0'

  /** isspace() in the C locale. */
  predicate IsSpace(c: char) {
    c == ' ' || c == '\t' || c == '\n' || c == '\r' || c == 11 as char || c == 12 as char
  }

  function TrimLeft(s: string): string {
    if s == [] || !IsSpace(s[0]) then s else TrimLeft(s[1..])
  }

  function TrimRight(s: string): string {
    if s == [] || !IsSpace(s[|s| - 1]) then s else TrimRight(s[..|s| - 1])
  }

  /** The position of the first c, or the length. */
  function IndexOf(s: string, c: char): (i: nat)
    ensures i <= |s|
  {
    if s == [] || s[0] == c then 0 else 1 + IndexOf(s[1..], c)
  }

  lemma {:induction false} IndexOfFirst(s: string, c: char)
    ensures var i := IndexOf(s, c); (i < |s| ==> s[i] == c) && forall j :: 0 <= j < i ==> s[j] != c
  {
    if s != [] && s[0] != c {
      var i := IndexOf(s[1..], c);
      IndexOfFirst(s[1..], c);
      forall j | 0 <= j < i + 1 ensures s[j] != c { if j > 0 { assert s[j] == s[1..][j - 1]; } }
    }
  }

  lemma {:induction false} IndexOfUnique(s: string, c: char, i: nat)
    requires i <= |s| && (i < |s| ==> s[i] == c) && forall j :: 0 <= j < i ==> s[j] != c
    ensures IndexOf(s, c) == i
  {
    if i > 0 { IndexOfUnique(s[1..], c, i - 1); }
  }

  datatype Line = Skip | Bad(text: string) | Hit(value: string)

  datatype Outcome = Value(value: string) | Malformed(line: string) | NullLine

  function ParseLine(line: string, key: string): Line {
    ParseTrimmed(TrimLeft(line), key)
  }

  function ParseTrimmed(t: string, key: string): Line {
    if t == [] || t[0] == '#' then Skip
    else
      var e := IndexOf(t, '=');
      if e == |t| then Bad(t)
      else if TrimRight(t[..e]) != key then Skip
      else Hit(TrimRight(TrimLeft(t[e + 1..])))
  }

  /** The value of key in the lines of the text: the first hit, unless a malformed line comes first. */
  function Scan(text: string, key: string): Outcome {
    var e := IndexOf(text, '\n');
    match ParseLine(text[..e], key)
    case Bad(t) => Malformed(t)
    case Hit(v) => Value(v)
    case Skip => if e == |text| then Value("") else Scan(text[e + 1..], key)
  }

  predicate OnlyNewlines(text: string) {
    forall i :: 0 <= i < |text| ==> text[i] == '\n'
  }

  /** The first strtok() finds no line in a file of newlines only, and its result is then dereferenced. */
  function Lookup(text: string, key: string): Outcome {
    if OnlyNewlines(text) then NullLine else Scan(text, key)
  }

  lemma ScanNewline(rest: string, key: string)
    ensures Scan("\n" + rest, key) == Scan(rest, key)
  {
    var text := "\n" + rest;
    assert IndexOf(text, '\n') == 0 && text[..0] == "" && text[1..] == rest;
    assert ParseLine("", key) == Skip;
  }

  lemma ScanLine(line: string, rest: string, key: string)
    requires '\n' !in line
    ensures Scan(line + "\n" + rest, key) ==
      match ParseLine(line, key)
      case Bad(t) => Malformed(t)
      case Hit(v) => Value(v)
      case Skip => Scan(rest, key)
  {
    var text := line + "\n" + rest;
    IndexOfUnique(text, '\n', |line|);
    assert text[..|line|] == line && text[|line| + 1..] == rest;
  }

  lemma ScanLast(line: string, key: string)
    requires '\n' !in line
    ensures Scan(line, key) ==
      match ParseLine(line, key)
      case Bad(t) => Malformed(t)
      case Hit(v) => Value(v)
      case Skip => Value("")
  {
    IndexOfUnique(line, '\n', |line|);
    assert line[..|line|] == line;
  }

  // ---- files written with any layout

  /** A line of a file, with the blanks an author may have put around its parts; Odd has no '='. */
  datatype Item =
    | Blank(spaces: string)
    | Odd(indent: string, text: string)
    | Comment(indent: string, text: string)
    | Pair(indent: string, key: string, beforeEq: string, afterEq: string, value: string, trailing: string)

  predicate Spaces(s: string) {
    forall i :: 0 <= i < |s| ==> IsSpace(s[i]) && s[i] != '\n'
  }

  predicate Trimmed(s: string) {
    s != [] ==> !IsSpace(s[0]) && !IsSpace(s[|s| - 1])
  }

  predicate WellFormed(item: Item) {
    match item
    case Blank(s) => Spaces(s)
    case Odd(s, t) => Spaces(s) && t != [] && !IsSpace(t[0]) && t[0] != '#' && '=' !in t && '\n' !in t
    case Comment(s, t) => Spaces(s) && '\n' !in t
    case Pair(i, k, b, a, v, t) =>
      Spaces(i) && Spaces(b) && Spaces(a) && Spaces(t) && Trimmed(k) && Trimmed(v) &&
      (k == [] ==> b == []) && (k != [] ==> k[0] != '#') && '=' !in k && '\n' !in k && '\n' !in v
  }

  function LineText(item: Item): string {
    match item
    case Blank(s) => s
    case Odd(s, t) => s + t
    case Comment(s, t) => s + "#" + t
    case Pair(i, k, b, a, v, t) => i + (k + b + "=" + (a + v + t))
  }

  function Render(items: seq<Item>): string {
    if items == [] then "" else LineText(items[0]) + "\n" + Render(items[1..])
  }

  /** What a file says about a key: its first value, unless a malformed line comes first; "" if there is neither. */
  function Answer(items: seq<Item>, key: string): Outcome {
    if items == [] then Value("")
    else if items[0].Odd? then Malformed(items[0].text)
    else if items[0].Pair? && items[0].key == key then Value(items[0].value)
    else Answer(items[1..], key)
  }

  lemma {:induction false} TrimLeftSpaces(s: string, t: string)
    requires Spaces(s) && (t != [] ==> !IsSpace(t[0]))
    ensures TrimLeft(s + t) == t
  {
    if s == [] { assert s + t == t; } else { assert (s + t)[1..] == s[1..] + t; TrimLeftSpaces(s[1..], t); }
  }

  lemma {:induction false} TrimRightSpaces(t: string, s: string)
    requires Spaces(s) && (t != [] ==> !IsSpace(t[|t| - 1]))
    ensures TrimRight(t + s) == t
  {
    if s == [] {
      assert t + s == t;
    } else {
      assert (t + s)[..|t + s| - 1] == t + s[..|s| - 1];
      TrimRightSpaces(t, s[..|s| - 1]);
    }
  }

  /** The two sides of the first '='. */
  lemma CutAtEquals(left: string, right: string)
    requires '=' !in left
    ensures var body := left + "=" + right;
            IndexOf(body, '=') == |left| && body[..|left|] == left && body[|left| + 1..] == right
  {
    IndexOfUnique(left + "=" + right, '=', |left|);
  }

  /** A line that starts with a key and not with a comment sign. */
  lemma KeyLine(indent: string, left: string, right: string, key: string)
    requires Spaces(indent) && '=' !in left
    requires left != [] ==> !IsSpace(left[0]) && left[0] != '#'
    ensures ParseLine(indent + (left + "=" + right), key)
         == if TrimRight(left) == key then Hit(TrimRight(TrimLeft(right))) else Skip
  {
    var body := left + "=" + right;
    assert body[0] == if left == [] then '=' else left[0];
    TrimLeftSpaces(indent, body);
    KeyBody(left, right, key);
  }

  lemma KeyBody(left: string, right: string, key: string)
    requires '=' !in left && (left != [] ==> left[0] != '#')
    ensures ParseTrimmed(left + "=" + right, key)
         == if TrimRight(left) == key then Hit(TrimRight(TrimLeft(right))) else Skip
  {
    CutAtEquals(left, right);
  }

  /** However a pair is laid out, its line yields the value under its key and is skipped under any other. */
  lemma PairLine(item: Item, key: string)
    requires item.Pair? && WellFormed(item)
    ensures ParseLine(LineText(item), key) == if item.key == key then Hit(item.value) else Skip
  {
    var Pair(i, k, b, a, v, t) := item;
    assert '=' !in k + b;
    KeyLine(i, k + b, a + v + t, key);
    TrimRightSpaces(k, b);
    TrimValue(a, v, t);
  }

  lemma TrimValue(a: string, v: string, t: string)
    requires Spaces(a) && Spaces(t) && Trimmed(v)
    ensures TrimRight(TrimLeft(a + v + t)) == v
  {
    if v == [] {
      assert a + v + t == (a + t) + [];
      TrimLeftSpaces(a + t, []);
    } else {
      assert a + v + t == a + (v + t);
      TrimLeftSpaces(a, v + t);
      TrimRightSpaces(v, t);
    }
  }

  /** A line without '=' is reported, whatever the key, without its indentation and with all that follows. */
  lemma OddLine(item: Item, key: string)
    requires item.Odd? && WellFormed(item)
    ensures ParseLine(LineText(item), key) == Bad(item.text)
  {
    TrimLeftSpaces(item.indent, item.text);
    IndexOfUnique(item.text, '=', |item.text|);
  }

  lemma NoiseLine(item: Item, key: string)
    requires !item.Pair? && !item.Odd? && WellFormed(item)
    ensures ParseLine(LineText(item), key) == Skip
  {
    match item {
      case Blank(s) => assert s + [] == s; TrimLeftSpaces(s, []);
      case Comment(s, t) => assert s + "#" + t == s + ("#" + t); TrimLeftSpaces(s, "#" + t);
    }
  }

  lemma LineHasNoNewline(item: Item)
    requires WellFormed(item)
    ensures '\n' !in LineText(item)
  {
  }

  /**
   Any file gives each key its first value, if no malformed line comes before it, and any other key
   "", whatever the indentation, blank lines, comments, blanks around '=' or carriage returns.  A
   malformed line before that is the answer itself.
   */
  lemma {:induction false} RenderRoundTrip(items: seq<Item>, key: string)
    requires forall i :: 0 <= i < |items| ==> WellFormed(items[i])
    ensures Scan(Render(items), key) == Answer(items, key)
  {
    if items == [] {
      ScanLast("", key);
      assert ParseLine("", key) == Skip;
    } else {
      ScanItem(items[0], Render(items[1..]), key);
      RenderRoundTrip(items[1..], key);
    }
  }

  lemma ScanItem(item: Item, rest: string, key: string)
    requires WellFormed(item)
    ensures Scan(LineText(item) + "\n" + rest, key) ==
      if item.Odd? then Malformed(item.text) else if item.Pair? && item.key == key then Value(item.value) else Scan(rest, key)
  {
    LineHasNoNewline(item);
    ScanLine(LineText(item), rest, key);
    if item.Pair? { PairLine(item, key); } else if item.Odd? { OddLine(item, key); } else { NoiseLine(item, key); }
  }

  /** The program itself reports NullLine instead exactly when every line of the file is empty. */
  lemma {:induction false} RenderLookup(items: seq<Item>, key: string)
    requires forall i :: 0 <= i < |items| ==> WellFormed(items[i])
    ensures Lookup(Render(items), key) ==
      if forall i :: 0 <= i < |items| ==> LineText(items[i]) == "" then NullLine
      else Answer(items, key)
  {
    RenderRoundTrip(items, key);
    EmptyLines(items);
  }

  lemma {:induction false} EmptyLines(items: seq<Item>)
    requires forall i :: 0 <= i < |items| ==> WellFormed(items[i])
    ensures OnlyNewlines(Render(items)) <==> forall i :: 0 <= i < |items| ==> LineText(items[i]) == ""
  {
    if items != [] {
      var line, later := LineText(items[0]), items[1..];
      EmptyLines(later);
      LineHasNoNewline(items[0]);
      NewlinesAfter(line, Render(later));
      if forall i :: 0 <= i < |items| ==> LineText(items[i]) == "" {
        forall i | 0 <= i < |later| ensures LineText(later[i]) == "" { assert later[i] == items[i + 1]; }
      }
      if line == "" && forall i :: 0 <= i < |later| ==> LineText(later[i]) == "" {
        forall i | 0 <= i < |items| ensures LineText(items[i]) == "" {
          if i > 0 { assert items[i] == later[i - 1]; }
        }
      }
    }
  }

  lemma NewlinesAfter(line: string, rest: string)
    requires '\n' !in line
    ensures OnlyNewlines(line + "\n" + rest) <==> line == "" && OnlyNewlines(rest)
  {
    var text := line + "\n" + rest;
    assert text[0] == if line == "" then '\n' else line[0];
    assert forall i :: 0 <= i < |rest| ==> rest[i] == text[|line| + 1 + i];
  }

  /** Two files with the same pairs and malformed lines in the same order answer every lookup alike. */
  lemma LayoutInsensitive(a: seq<Item>, b: seq<Item>, key: string)
    requires forall i :: 0 <= i < |a| ==> WellFormed(a[i])
    requires forall i :: 0 <= i < |b| ==> WellFormed(b[i])
    requires Contents(a) == Contents(b)
    ensures Scan(Render(a), key) == Scan(Render(b), key)
  {
    RenderRoundTrip(a, key);
    RenderRoundTrip(b, key);
    AnswerOfContents(a, key);
    AnswerOfContents(b, key);
  }

  datatype Content = Given(key: string, value: string) | NotAPair(text: string)

  /** What is left of a file without its layout. */
  function Contents(items: seq<Item>): seq<Content> {
    if items == [] then [] else Content1(items[0]) + Contents(items[1..])
  }

  function Content1(item: Item): seq<Content> {
    if item.Pair? then [Given(item.key, item.value)] else if item.Odd? then [NotAPair(item.text)] else []
  }

  function First(contents: seq<Content>, key: string): Outcome {
    if contents == [] then Value("")
    else match contents[0]
      case NotAPair(t) => Malformed(t)
      case Given(k, v) => if k == key then Value(v) else First(contents[1..], key)
  }

  lemma {:induction false} AnswerOfContents(items: seq<Item>, key: string)
    ensures Answer(items, key) == First(Contents(items), key)
  {
    if items != [] {
      AnswerOfContents(items[1..], key);
      var rest := Contents(items[1..]);
      if Content1(items[0]) == [] { assert Contents(items) == rest; } else { assert Contents(items)[1..] == rest; }
    }
  }

  // ---- every text is such a file

  lemma {:induction false} LeftBlanks(s: string) returns (blanks: string)
    ensures s == blanks + TrimLeft(s) && (forall i :: 0 <= i < |blanks| ==> IsSpace(blanks[i]))
    ensures TrimLeft(s) != [] ==> !IsSpace(TrimLeft(s)[0])
  {
    blanks := [];
    if s != [] && IsSpace(s[0]) {
      var more := LeftBlanks(s[1..]);
      blanks := [s[0]] + more;
    }
  }

  lemma {:induction false} RightBlanks(s: string) returns (blanks: string)
    ensures s == TrimRight(s) + blanks && (forall i :: 0 <= i < |blanks| ==> IsSpace(blanks[i]))
    ensures TrimRight(s) != [] ==> !IsSpace(TrimRight(s)[|TrimRight(s)| - 1]) && TrimRight(s)[0] == s[0]
  {
    blanks := [];
    if s != [] && IsSpace(s[|s| - 1]) {
      var more := RightBlanks(s[..|s| - 1]);
      blanks := more + [s[|s| - 1]];
      assert s == s[..|s| - 1] + [s[|s| - 1]];
    }
  }

  /** Every line is a blank line, a comment, a pair or a malformed line, laid out in some way. */
  lemma LineIsItem(line: string) returns (item: Item)
    requires '\n' !in line
    ensures WellFormed(item) && LineText(item) == line
  {
    var indent := LeftBlanks(line);
    var t := TrimLeft(line);
    assert Spaces(indent) && '\n' !in t by { assert forall c :: c in indent || c in t ==> c in line; }
    if t == [] {
      item := Blank(indent);
    } else if t[0] == '#' {
      item := Comment(indent, t[1..]);
      assert "#" + t[1..] == t;
    } else {
      IndexOfFirst(t, '=');
      var e := IndexOf(t, '=');
      if e == |t| { item := Odd(indent, t); } else { item := PairOfLine(line, indent, t, e); }
    }
  }

  lemma PairOfLine(line: string, indent: string, t: string, e: nat) returns (item: Item)
    requires line == indent + t && '\n' !in t && Spaces(indent) && e < |t| && t[e] == '=' && forall j :: 0 <= j < e ==> t[j] != '='
    requires t[0] != '#' && !IsSpace(t[0])
    ensures WellFormed(item) && LineText(item) == line
  {
    var left, right := t[..e], t[e + 1..];
    assert t == left + "=" + right;
    var k, b := KeyPart(left);
    var a, v, c := ValuePart(right);
    item := Pair(indent, k, b, a, v, c);
  }

  lemma KeyPart(left: string) returns (k: string, b: string)
    requires '=' !in left && '\n' !in left && (left != [] ==> left[0] != '#' && !IsSpace(left[0]))
    ensures left == k + b && Trimmed(k) && Spaces(b) && (k == [] ==> b == []) && (k != [] ==> k[0] != '#')
    ensures '=' !in k && '\n' !in k
  {
    b := RightBlanks(left);
    k := TrimRight(left);
    assert k == [] ==> left == b;
    assert forall i :: 0 <= i < |b| ==> b[i] == left[|k| + i];
  }

  lemma ValuePart(right: string) returns (a: string, v: string, c: string)
    requires '\n' !in right
    ensures right == a + v + c && Spaces(a) && Trimmed(v) && Spaces(c) && '\n' !in v
  {
    a := LeftBlanks(right);
    var t := TrimLeft(right);
    Parted(right, a, t);
    c := RightBlanks(t);
    v := TrimRight(t);
    Parted(t, v, c);
    assert a + (v + c) == a + v + c;
  }

  lemma Parted(whole: string, a: string, b: string)
    requires '\n' !in whole && whole == a + b
    ensures '\n' !in a && '\n' !in b
  {
    assert forall x :: x in a || x in b ==> x in whole;
  }

  /** So every text has lines of these kinds, and what it says about a key is what they say. */
  lemma {:induction false} TextIsFile(text: string) returns (items: seq<Item>)
    ensures (forall i :: 0 <= i < |items| ==> WellFormed(items[i])) && Render(items) == text + "\n"
    ensures forall key :: Scan(text, key) == Answer(items, key)
  {
    IndexOfFirst(text, '\n');
    var e := IndexOf(text, '\n');
    var item := LineIsItem(text[..e]);
    var later := [];
    if e < |text| {
      later := TextIsFile(text[e + 1..]);
      assert text == text[..e] + "\n" + text[e + 1..];
    } else {
      assert text[..e] == text;
    }
    items := [item] + later;
    assert items[1..] == later;
    forall key ensures Scan(text, key) == Answer(items, key) { FirstLine(text, item, e, items, key); }
  }

  lemma FirstLine(text: string, item: Item, e: nat, items: seq<Item>, key: string)
    requires e == IndexOf(text, '\n') && WellFormed(item) && LineText(item) == text[..e] && items != [] && items[0] == item
    requires if e < |text| then Scan(text[e + 1..], key) == Answer(items[1..], key) else items[1..] == []
    ensures Scan(text, key) == Answer(items, key)
  {
    if item.Pair? { PairLine(item, key); } else if item.Odd? { OddLine(item, key); } else { NoiseLine(item, key); }
  }
}
