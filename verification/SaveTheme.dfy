/** The line edit of SaveTheme: it rewrites the first theme line under `app:` and
    nothing else.  Text is a sequence of characters, one per byte; white space is
    ASCII white space. */
module SaveTheme {
  import opened Common

  // Strings

  predicate IsSpace(c: char) {
    c == ' ' || c == '\t' || c == '\n' || c == '\r' || c as int == 11 || c as int == 12
  }

  function TrimLeft(s: string): string {
    if s != "" && IsSpace(s[0]) then TrimLeft(s[1..]) else s
  }

  function TrimRight(s: string): string {
    if s != "" && IsSpace(s[|s| - 1]) then TrimRight(s[..|s| - 1]) else s
  }

  function Trim(s: string): string {
    TrimRight(TrimLeft(s))
  }

  function Spaces(n: nat): string {
    seq(n, _ => ' ')
  }

  /** The part of `s` from its first '#' on; "" if there is none. */
  function FromHash(s: string): string {
    if s == "" then "" else if s[0] == '#' then s else FromHash(s[1..])
  }

  function Split(text: string): (lines: seq<string>)
    ensures |lines| >= 1
  {
    if text == "" then [""]
    else
      var rest := Split(text[1..]);
      if text[0] == '\n' then [""] + rest else [[text[0]] + rest[0]] + rest[1..]
  }

  function Join(lines: seq<string>): string {
    if lines == [] then ""
    else if |lines| == 1 then lines[0]
    else lines[0] + "\n" + Join(lines[1..])
  }

  predicate OneLine(s: string) {
    '\n' !in s
  }

  // Quoting a name as %q does

  const HEX := "0123456789abcdef"

  function Escape(c: char): (e: string)
    ensures e != "" && OneLine(e) && ('#' in e <==> c == '#')
  {
    if c == '"' then "\\\""
    else if c == '\\' then "\\\\"
    else if c as int == 7 then "\\a"
    else if c as int == 8 then "\\b"
    else if c as int == 9 then "\\t"
    else if c as int == 10 then "\\n"
    else if c as int == 11 then "\\v"
    else if c as int == 12 then "\\f"
    else if c as int == 13 then "\\r"
    else if c as int < 32 || c as int == 127 then "\\x" + [HEX[c as int / 16], HEX[c as int % 16]]
    else [c]
  }

  function EscapeAll(name: string): (e: string)
    ensures OneLine(e) && ('#' in e <==> '#' in name)
  {
    if name == "" then "" else Escape(name[0]) + EscapeAll(name[1..])
  }

  function Quote(name: string): (q: string)
    ensures OneLine(q) && ('#' in q <==> '#' in name)
  {
    "\"" + EscapeAll(name) + "\""
  }

  // The edit

  function IndentOf(line: string): nat {
    Width(line);
    |line| - |Trim(line)|
  }

  lemma {:induction false} TrimLeftWidth(s: string)
    ensures |TrimLeft(s)| <= |s| && TrimLeft(s) == s[|s| - |TrimLeft(s)|..]
  {
    if s != "" && IsSpace(s[0]) {
      TrimLeftWidth(s[1..]);
    }
  }

  lemma {:induction false} TrimRightWidth(s: string)
    ensures |TrimRight(s)| <= |s| && TrimRight(s) == s[..|TrimRight(s)|]
    ensures TrimRight(s) != "" ==> !IsSpace(TrimRight(s)[|TrimRight(s)| - 1])
  {
    if s != "" && IsSpace(s[|s| - 1]) {
      TrimRightWidth(s[..|s| - 1]);
    }
  }

  lemma Width(line: string)
    ensures |Trim(line)| <= |line|
  {
    TrimLeftWidth(line);
    TrimRightWidth(TrimLeft(line));
  }

  function CommentOf(line: string): string {
    var rest := FromHash(Trim(line));
    if rest == "" then "" else " " + rest
  }

  function EditLine(line: string, name: string): string {
    Spaces(IndentOf(line)) + "theme: " + Quote(name) + CommentOf(line)
  }

  /** -1 when there is no app: line */
  function AppIndent(lines: seq<string>): int {
    if lines == [] then -1
    else if "app:" <= Trim(lines[0]) then IndentOf(lines[0])
    else AppIndent(lines[1..])
  }

  predicate Editable(line: string, appIndent: int) {
    "theme:" <= Trim(line) && !(appIndent >= 0 && IndentOf(line) <= appIndent)
  }

  /** The index of the first editable line, or |lines|. */
  function FindTheme(lines: seq<string>, appIndent: int): (i: nat)
    ensures i <= |lines|
    ensures i < |lines| ==> Editable(lines[i], appIndent)
    ensures forall k :: 0 <= k < i ==> !Editable(lines[k], appIndent)
  {
    if lines == [] || Editable(lines[0], appIndent) then 0 else 1 + FindTheme(lines[1..], appIndent)
  }

  /** The new file text; None when the file has no app.theme key. */
  function Save(text: string, name: string): Option<string> {
    var lines := Split(text);
    var i := FindTheme(lines, AppIndent(lines));
    if i < |lines| then Some(Join(lines[i := EditLine(lines[i], name)])) else None
  }

  // Splitting and joining

  lemma {:induction false} JoinSplit(text: string)
    ensures Join(Split(text)) == text
    ensures forall k :: 0 <= k < |Split(text)| ==> OneLine(Split(text)[k])
  {
    if text != "" {
      JoinSplit(text[1..]);
      var rest := Split(text[1..]);
      if text[0] == '\n' {
        assert Split(text)[1..] == rest;
      } else {
        assert Split(text)[1..] == rest[1..];
      }
    }
  }

  lemma {:induction false} SplitLine(line: string, tail: string)
    requires OneLine(line)
    ensures Split(line) == [line]
    ensures Split(line + "\n" + tail) == [line] + Split(tail)
  {
    var t := line + "\n" + tail;
    if line == "" {
      assert t[1..] == tail;
    } else {
      SplitLine(line[1..], tail);
      assert t[1..] == line[1..] + "\n" + tail;
      assert [line[0]] + line[1..] == line;
    }
  }

  lemma {:induction false} SplitJoin(lines: seq<string>)
    requires |lines| >= 1 && forall k :: 0 <= k < |lines| ==> OneLine(lines[k])
    ensures Split(Join(lines)) == lines
  {
    if |lines| == 1 {
      SplitLine(lines[0], "");
    } else {
      SplitJoin(lines[1..]);
      SplitLine(lines[0], Join(lines[1..]));
    }
  }

  /** The number of leading white-space characters. */
  function Lead(line: string): int {
    |line| - |TrimLeft(line)|
  }

  // What the edit does to a line

  lemma {:induction false} TrimLeftSpaces(n: nat, s: string)
    requires s != "" && !IsSpace(s[0])
    ensures TrimLeft(Spaces(n) + s) == s
  {
    if n == 0 {
      assert Spaces(n) + s == s;
    } else {
      assert (Spaces(n) + s)[1..] == Spaces(n - 1) + s;
      TrimLeftSpaces(n - 1, s);
    }
  }

  lemma {:induction false} FromHashSuffix(s: string)
    ensures |FromHash(s)| <= |s| && FromHash(s) == s[|s| - |FromHash(s)|..]
    ensures FromHash(s) != "" <==> '#' in s
    ensures FromHash(s) != "" ==> FromHash(s)[0] == '#'
  {
    if s != "" && s[0] != '#' {
      FromHashSuffix(s[1..]);
    }
  }

  lemma {:induction false} FromHashConcat(a: string, b: string)
    ensures '#' !in a ==> FromHash(a + b) == FromHash(b)
    ensures '#' in a ==> FromHash(a + b) == FromHash(a) + b
  {
    if a == "" {
      assert a + b == b;
    } else {
      assert (a + b)[1..] == a[1..] + b;
      assert a == [a[0]] + a[1..];
      FromHashConcat(a[1..], b);
    }
  }

  lemma HashOfSpaced(tail: string)
    requires tail != "" && tail[0] == '#'
    ensures FromHash(" " + tail) == tail
  {
    assert (" " + tail)[1..] == tail;
  }

  lemma SuffixEnd(s: string, tail: string)
    requires tail != "" && |tail| <= |s| && tail == s[|s| - |tail|..]
    ensures tail[|tail| - 1] == s[|s| - 1]
  {
  }

  lemma TrimEnd(line: string)
    ensures Trim(line) != "" ==> !IsSpace(Trim(line)[|Trim(line)| - 1])
    ensures OneLine(line) ==> OneLine(Trim(line))
  {
    TrimLeftWidth(line);
    TrimRightWidth(TrimLeft(line));
  }

  lemma CommentShape(line: string)
    ensures CommentOf(line) != "" ==> |CommentOf(line)| >= 2 && CommentOf(line)[1] == '#'
                                      && !IsSpace(CommentOf(line)[|CommentOf(line)| - 1])
    ensures CommentOf(line) == "" || CommentOf(line) == " " + FromHash(CommentOf(line))
    ensures OneLine(line) ==> OneLine(CommentOf(line))
  {
    var tail := FromHash(Trim(line));
    TrimEnd(line);
    FromHashSuffix(Trim(line));
    if tail != "" {
      HashOfSpaced(tail);
      SuffixEnd(Trim(line), tail);
    }
  }

  /** The content of the new line, without its indentation. */
  function Content(name: string, comment: string): string {
    "theme: " + Quote(name) + comment
  }

  lemma ContentShape(name: string, comment: string)
    requires comment != "" ==> !IsSpace(comment[|comment| - 1])
    ensures var c := Content(name, comment);
            c != "" && !IsSpace(c[0]) && "theme:" <= c && TrimRight(c) == c
  {
    var c := Content(name, comment);
    assert c[..6] == "theme:";
    if comment == "" {
      assert c[|c| - 1] == '"';
    } else {
      assert c[|c| - 1] == comment[|comment| - 1];
    }
  }

  lemma EditedLineShape(line: string, name: string)
    ensures EditLine(line, name) == Spaces(IndentOf(line)) + Content(name, CommentOf(line))
  {
    assert Spaces(IndentOf(line)) + "theme: " + Quote(name) + CommentOf(line)
        == Spaces(IndentOf(line)) + ("theme: " + Quote(name) + CommentOf(line));
  }

  lemma EditedLineTrims(line: string, name: string)
    ensures Trim(EditLine(line, name)) == Content(name, CommentOf(line))
    ensures IndentOf(EditLine(line, name)) == IndentOf(line)
    ensures "theme:" <= Trim(EditLine(line, name))
  {
    var c := Content(name, CommentOf(line));
    CommentShape(line);
    ContentShape(name, CommentOf(line));
    EditedLineShape(line, name);
    TrimLeftSpaces(IndentOf(line), c);
  }

  lemma EditedIsOneLine(line: string, name: string)
    requires OneLine(line)
    ensures OneLine(EditLine(line, name))
  {
    CommentShape(line);
    EditedLineShape(line, name);
  }

  /** The comment found by a second save: the same one, unless the name written
      by the first contains a '#'; then part of the name is taken for a comment. */
  lemma CommentAfterEdit(line: string, name: string)
    ensures '#' !in name ==> CommentOf(EditLine(line, name)) == CommentOf(line)
    ensures '#' in name ==> |CommentOf(EditLine(line, name))| > |CommentOf(line)|
  {
    EditedLineTrims(line, name);
    CommentShape(line);
    var head := "theme: " + Quote(name);
    var c := CommentOf(line);
    assert Content(name, c) == head + c;
    assert '#' in head <==> '#' in Quote(name);
    FromHashConcat(head, c);
    FromHashSuffix(head);
    FromHashSuffix(c);
  }

  // Two saves

  lemma ThemeIsNotApp(s: string)
    requires "theme:" <= s
    ensures !("app:" <= s)
  {
    assert s[0] == 't';
  }

  /** Editing the found line changes neither which line is found nor the indent
      of the app: line. */
  lemma {:induction false} AppIndentAfterEdit(lines: seq<string>, i: nat, name: string)
    requires i < |lines| && "theme:" <= Trim(lines[i])
    ensures AppIndent(lines[i := EditLine(lines[i], name)]) == AppIndent(lines)
  {
    var lines' := lines[i := EditLine(lines[i], name)];
    EditedLineTrims(lines[i], name);
    if i == 0 {
      ThemeIsNotApp(Trim(lines[0]));
      ThemeIsNotApp(Trim(lines'[0]));
      assert lines'[1..] == lines[1..];
    } else {
      assert lines'[1..] == lines[1..][i - 1 := EditLine(lines[i], name)];
      AppIndentAfterEdit(lines[1..], i - 1, name);
    }
  }

  lemma FindIsUnique(lines: seq<string>, appIndent: int, i: nat)
    requires i < |lines| && Editable(lines[i], appIndent)
    requires forall k :: 0 <= k < i ==> !Editable(lines[k], appIndent)
    ensures FindTheme(lines, appIndent) == i
  {
  }

  lemma FindAfterEdit(lines: seq<string>, i: nat, name: string)
    requires i == FindTheme(lines, AppIndent(lines)) < |lines|
    ensures var lines' := lines[i := EditLine(lines[i], name)];
            AppIndent(lines') == AppIndent(lines) && FindTheme(lines', AppIndent(lines')) == i
  {
    var lines' := lines[i := EditLine(lines[i], name)];
    AppIndentAfterEdit(lines, i, name);
    EditedLineTrims(lines[i], name);
    FindIsUnique(lines', AppIndent(lines), i);
  }

  /** The index of the line a save would edit, or the number of lines. */
  function Found(text: string): nat {
    FindTheme(Split(text), AppIndent(Split(text)))
  }

  /** The lines of a saved file: one of them is edited, all others are the same
      byte for byte. */
  lemma SavedLines(text: string, name: string)
    requires Save(text, name).Some?
    ensures Found(text) < |Split(text)|
    ensures Split(Save(text, name).value) == Split(text)[Found(text) := EditLine(Split(text)[Found(text)], name)]
  {
    JoinSplit(text);
    var lines, i := Split(text), Found(text);
    EditedIsOneLine(lines[i], name);
    SplitJoin(lines[i := EditLine(lines[i], name)]);
  }

  lemma FoundAfterSave(text: string, name: string)
    requires Save(text, name).Some?
    ensures Found(Save(text, name).value) == Found(text)
  {
    SavedLines(text, name);
    FindAfterEdit(Split(text), Found(text), name);
  }

  lemma UpdateTwice(lines: seq<string>, i: nat, x: string, y: string)
    requires i < |lines|
    ensures lines[i := x][i := y] == lines[i := y]
  {
  }

  /** Whether a file can be saved does not depend on the name, and the second of
      two saves edits the line the first one wrote. */
  lemma SaveTwice(text: string, a: string, b: string)
    requires Save(text, a).Some?
    ensures Save(text, b).Some? && Save(Save(text, a).value, b).Some?
    ensures Found(text) < |Split(text)|
    ensures Split(Save(Save(text, a).value, b).value)
            == Split(text)[Found(text) := EditLine(EditLine(Split(text)[Found(text)], a), b)]
  {
    var once := Save(text, a).value;
    SavedLines(text, a);
    FoundAfterSave(text, a);
    SavedLines(once, b);
    UpdateTwice(Split(text), Found(text), EditLine(Split(text)[Found(text)], a), EditLine(Split(once)[Found(text)], b));
  }

  /** Last writer wins: for every file with an editable theme line, saving `a`
      and then `b` gives the text of saving `b` alone if and only if `a` has no
      '#' in it. */
  lemma LastWriterWinsIff(text: string, a: string, b: string)
    requires Save(text, a).Some?
    ensures Save(text, b).Some? && Save(Save(text, a).value, b).Some?
    ensures Save(Save(text, a).value, b) == Save(text, b) <==> '#' !in a
  {
    SaveTwice(text, a, b);
    SavedLines(text, b);
    var lines, i := Split(text), Found(text);
    var twice, once := EditLine(EditLine(lines[i], a), b), EditLine(lines[i], b);
    EditedLineTrims(lines[i], a);
    CommentAfterEdit(lines[i], a);
    if '#' !in a {
      assert twice == once;
      JoinSplit(Save(Save(text, a).value, b).value);
      JoinSplit(Save(text, b).value);
    } else {
      assert |twice| > |once|;
      assert lines[i := twice][i] != lines[i := once][i];
    }
  }

  // The whole edit, in terms of lines and white space only

  // The white space is what Trim takes off at both ends, and all of it

  lemma WhiteSpace(c: char)
    ensures IsSpace(c) <==> c as int in {9, 10, 11, 12, 13, 32}
  {
  }

  lemma {:induction false} TrimLeftCuts(s: string)
    ensures |TrimLeft(s)| <= |s| && forall k :: 0 <= k < |s| - |TrimLeft(s)| ==> IsSpace(s[k])
    ensures TrimLeft(s) != "" ==> !IsSpace(TrimLeft(s)[0])
  {
    if s != "" && IsSpace(s[0]) {
      TrimLeftCuts(s[1..]);
      assert forall k :: 1 <= k < |s| ==> s[k] == s[1..][k - 1];
    }
  }

  lemma {:induction false} TrimRightCuts(s: string)
    ensures |TrimRight(s)| <= |s| && forall k :: |TrimRight(s)| <= k < |s| ==> IsSpace(s[k])
  {
    if s != "" && IsSpace(s[|s| - 1]) {
      TrimRightCuts(s[..|s| - 1]);
    }
  }

  lemma TrimIsCore(s: string) returns (i: nat, j: nat)
    ensures i <= j <= |s| && Trim(s) == s[i..j]
    ensures forall k :: 0 <= k < i || j <= k < |s| ==> IsSpace(s[k])
    ensures i < j ==> !IsSpace(s[i]) && !IsSpace(s[j - 1])
  {
    var t := TrimLeft(s);
    TrimLeftWidth(s);
    TrimLeftCuts(s);
    TrimRightWidth(t);
    TrimRightCuts(t);
    i := |s| - |t|;
    j := i + |Trim(s)|;
    assert forall k :: 0 <= k < |t| ==> t[k] == s[i + k];
    forall k | j <= k < |s| ensures IsSpace(s[k]) {
      assert t[k - i] == s[k];
    }
  }

  /** `app` is the first line that starts with "app:", or -1. */
  predicate FirstApp(lines: seq<string>, app: int) {
    && -1 <= app < |lines| && (app >= 0 ==> "app:" <= Trim(lines[app]))
    && forall k :: 0 <= k < |lines| && (k < app || app == -1) ==> !("app:" <= Trim(lines[k]))
  }

  lemma {:induction false} FirstAppExists(lines: seq<string>) returns (app: int)
    ensures FirstApp(lines, app)
  {
    if lines == [] {
      app := -1;
    } else if "app:" <= Trim(lines[0]) {
      app := 0;
    } else {
      var rest := FirstAppExists(lines[1..]);
      app := if rest < 0 then -1 else rest + 1;
      assert forall k :: 1 <= k < |lines| ==> lines[k] == lines[1..][k - 1];
    }
  }

  lemma {:induction false} AppIndentIs(lines: seq<string>, app: int)
    requires FirstApp(lines, app)
    ensures AppIndent(lines) == if app < 0 then -1 else |lines[app]| - |Trim(lines[app])|
  {
    if lines != [] && !("app:" <= Trim(lines[0])) {
      assert forall k :: 0 <= k < |lines| - 1 ==> lines[1..][k] == lines[k + 1];
      AppIndentIs(lines[1..], if app < 0 then -1 else app - 1);
    }
  }

  lemma {:induction false} FromHashHead(s: string)
    ensures |FromHash(s)| <= |s| && '#' !in s[..|s| - |FromHash(s)|]
  {
    FromHashSuffix(s);
    if s != "" && s[0] != '#' {
      FromHashHead(s[1..]);
      FromHashSuffix(s[1..]);
      assert s[..|s| - |FromHash(s)|] == [s[0]] + s[1..][..|s| - 1 - |FromHash(s)|];
    }
  }

  lemma EditableIffNested(lines: seq<string>, app: int, i: nat)
    requires FirstApp(lines, app) && i < |lines|
    ensures Editable(lines[i], AppIndent(lines))
            <==> && "theme:" <= Trim(lines[i])
                 && (app >= 0 ==> |lines[i]| - |Trim(lines[i])| > |lines[app]| - |Trim(lines[app])|)
  {
    if app >= 0 {
      Width(lines[app]);
    }
    AppIndentIs(lines, app);
  }

  lemma EditIs(line: string, name: string) returns (head: string, tail: string)
    ensures |Trim(line)| <= |line|
    ensures EditLine(line, name) == seq(|line| - |Trim(line)|, _ => ' ') + "theme: " + Quote(name) + tail
    ensures if '#' in Trim(line) then " #" <= tail && Trim(line) == head + tail[1..] && '#' !in head else tail == ""
  {
    Width(line);
    head, tail := SplitAtHash(Trim(line));
    assert Spaces(IndentOf(line)) == seq(|line| - |Trim(line)|, _ => ' ');
    assert tail == CommentOf(line);
  }

  lemma SplitAtHash(content: string) returns (head: string, tail: string)
    ensures tail == if FromHash(content) == "" then "" else " " + FromHash(content)
    ensures if '#' in content then " #" <= tail && content == head + tail[1..] && '#' !in head else tail == ""
  {
    FromHashSuffix(content);
    FromHashHead(content);
    head := content[..|content| - |FromHash(content)|];
    tail := "";
    if FromHash(content) != "" {
      tail := " " + FromHash(content);
      assert tail[..2] == " #" && tail[1..] == FromHash(content);
    }
  }

  lemma FoundIsFirst(lines: seq<string>, app: int)
    requires FirstApp(lines, app)
    ensures forall j :: 0 <= j < FindTheme(lines, AppIndent(lines)) && "theme:" <= Trim(lines[j]) ==>
              app >= 0 && |lines[j]| - |Trim(lines[j])| <= |lines[app]| - |Trim(lines[app])|
  {
    forall j | 0 <= j < FindTheme(lines, AppIndent(lines)) && "theme:" <= Trim(lines[j])
      ensures app >= 0 && |lines[j]| - |Trim(lines[j])| <= |lines[app]| - |Trim(lines[app])|
    {
      EditableIffNested(lines, app, j);
    }
  }

  /** Save rewrites the first theme line with more white space around it than the
      first app: line, or the first theme line if there is no app: line (`app` is
      -1), and touches no other line; it fails exactly when there is no such line.
      What replaces the line: its white space as leading blanks, the quoted name,
      and what follows the first '#', set off by one blank. */
  lemma SaveRewrites(text: string, name: string) returns (app: int, i: nat, head: string, tail: string)
    ensures var lines := Split(text);
            && -1 <= app < |lines| && (app >= 0 ==> "app:" <= Trim(lines[app]))
            && forall k :: 0 <= k < |lines| && (k < app || app == -1) ==> !("app:" <= Trim(lines[k]))
    ensures i <= |Split(text)| && (Save(text, name).Some? <==> i < |Split(text)|)
    ensures var lines := Split(text);
            forall j :: 0 <= j < i && "theme:" <= Trim(lines[j]) ==>
              app >= 0 && |lines[j]| - |Trim(lines[j])| <= |lines[app]| - |Trim(lines[app])|
    ensures i < |Split(text)| ==>
              var lines := Split(text);
              var line := lines[i];
              && "theme:" <= Trim(line) && |Trim(line)| <= |line|
              && (app >= 0 ==> |line| - |Trim(line)| > |lines[app]| - |Trim(lines[app])|)
              && Split(Save(text, name).value)
                 == lines[i := seq(|line| - |Trim(line)|, _ => ' ') + "theme: " + Quote(name) + tail]
              && (if '#' in Trim(line) then " #" <= tail && Trim(line) == head + tail[1..] && '#' !in head
                  else tail == "")
  {
    var lines := Split(text);
    app := FirstAppExists(lines);
    i, head, tail := Found(text), "", "";
    FoundIsFirst(lines, app);
    if i < |lines| {
      SavedLines(text, name);
      EditableIffNested(lines, app, i);
      head, tail := EditIs(lines[i], name);
    }
  }

  // Which block the edited line belongs to.  Unlike the edit, what follows reads
  // the structure of the file off the leading white space alone.

  predicate IsTheme(line: string) {
    "theme:" <= Trim(line)
  }

  predicate IsKey(line: string, key: string) {
    key + ":" <= Trim(line) && (|Trim(line)| == |key| + 1 || IsSpace(Trim(line)[|key| + 1]))
  }

  predicate IsTopApp(line: string) {
    Lead(line) == 0 && IsKey(line, "app")
  }

  /** The line of the top-level app: key, or |lines|. */
  function TopApp(lines: seq<string>): (i: nat)
    ensures i <= |lines|
    ensures i < |lines| ==> IsTopApp(lines[i])
    ensures forall k :: 0 <= k < i ==> !IsTopApp(lines[k])
  {
    if lines == [] || IsTopApp(lines[0]) then 0 else 1 + TopApp(lines[1..])
  }

  /** Blank lines and comments belong to whatever block they stand in. */
  predicate Skipped(line: string) {
    Trim(line) == "" || Trim(line)[0] == '#'
  }

  /** Line `j` lies in the block of the top-level app: key: below it, with every
      line up to and including `j` skipped or indented. */
  predicate InTopBlock(lines: seq<string>, j: nat) {
    && TopApp(lines) < j < |lines|
    && forall k :: TopApp(lines) < k <= j ==> Skipped(lines[k]) || Lead(lines[k]) > 0
  }

  /** How far the block reaches: a line goes on with it if and only if it is blank,
      a comment or indented. */
  lemma BlockGoesOn(lines: seq<string>, j: nat)
    requires j == TopApp(lines) || InTopBlock(lines, j)
    requires j + 1 < |lines|
    ensures var line := lines[j + 1];
            InTopBlock(lines, j + 1)
            <==> Trim(line) == "" || "#" <= Trim(line) || |TrimLeft(line)| < |line|
  {
    TrimLeftWidth(lines[j + 1]);
  }

  /** The index of the first line that is not skipped, from line `i` on. */
  function NextLine(lines: seq<string>, i: nat): (k: nat)
    requires i <= |lines|
    ensures i <= k <= |lines|
    decreases |lines| - i
  {
    if i == |lines| || !Skipped(lines[i]) then i else NextLine(lines, i + 1)
  }

  /** Line `j` is app.theme itself: a theme key in that block, indented as its
      first line is. */
  predicate IsAppTheme(lines: seq<string>, j: nat) {
    && InTopBlock(lines, j) && IsKey(lines[j], "theme")
    && var child := NextLine(lines, TopApp(lines) + 1);
       child < |lines| && Lead(lines[j]) == Lead(lines[child])
  }

  /** A theme line that the edit would take if it came first. */
  predicate Takes(lines: seq<string>, j: nat) {
    j < |lines| && Editable(lines[j], AppIndent(lines))
  }

  predicate TakesAbove(lines: seq<string>) {
    exists k: nat :: k < TopApp(lines) && Takes(lines, k)
  }

  /** No editable line of the app: block before line `j` is anything but app.theme. */
  predicate OnlyAppThemesBefore(lines: seq<string>, j: nat) {
    forall k: nat :: TopApp(lines) < k < j && Takes(lines, k) ==> IsAppTheme(lines, k)
  }

  function Taken(lines: seq<string>): nat {
    FindTheme(lines, AppIndent(lines))
  }

  lemma TopAppIsNoTheme(lines: seq<string>)
    ensures !Takes(lines, TopApp(lines))
  {
    var i := TopApp(lines);
    if i < |lines| {
      assert "app" + ":" == "app:" && Trim(lines[i])[0] == 'a';
    }
  }

  lemma FirstTaken(lines: seq<string>, j: nat)
    requires Takes(lines, j) && TopApp(lines) < j && !TakesAbove(lines)
    ensures Takes(lines, Taken(lines)) && TopApp(lines) < Taken(lines) <= j
  {
    var i := Taken(lines);
    TopAppIsNoTheme(lines);
    assert i <= j && Takes(lines, i);
    assert !(i < TopApp(lines));
  }

  /** The exact condition under which no theme of another top-level block is
      rewritten: the line taken lies in the block of the top-level app: key if and
      only if that block has an editable line and there is none above it. */
  lemma EditsAppBlockIff(lines: seq<string>)
    ensures InTopBlock(lines, Taken(lines))
            <==> (exists j: nat :: InTopBlock(lines, j) && Takes(lines, j)) && !TakesAbove(lines)
  {
    if j: nat :| InTopBlock(lines, j) && Takes(lines, j) {
      if !TakesAbove(lines) {
        FirstTaken(lines, j);
      }
    }
  }

  /** The exact condition under which the line taken is app.theme: there is an
      editable app.theme with nothing else editable before it, neither above the
      app: key nor nested more deeply in its block. */
  lemma EditsAppThemeIff(lines: seq<string>)
    ensures IsAppTheme(lines, Taken(lines))
            <==> && !TakesAbove(lines)
                 && exists j: nat :: IsAppTheme(lines, j) && Takes(lines, j) && OnlyAppThemesBefore(lines, j)
  {
    var i := Taken(lines);
    if IsAppTheme(lines, i) {
      assert Takes(lines, i) && OnlyAppThemesBefore(lines, i);
    } else if j: nat :| IsAppTheme(lines, j) && Takes(lines, j) && OnlyAppThemesBefore(lines, j) {
      if !TakesAbove(lines) {
        FirstTaken(lines, j);
      }
    }
  }

  /** The same through Save, for every file that can be saved. */
  lemma SaveEditsAppThemeIff(text: string, name: string)
    requires Save(text, name).Some?
    ensures var lines := Split(text);
            && Taken(lines) < |lines|
            && Split(Save(text, name).value) == lines[Taken(lines) := EditLine(lines[Taken(lines)], name)]
            && (InTopBlock(lines, Taken(lines))
                <==> (exists j: nat :: InTopBlock(lines, j) && Takes(lines, j)) && !TakesAbove(lines))
            && (IsAppTheme(lines, Taken(lines))
                <==> && !TakesAbove(lines)
                     && exists j: nat :: IsAppTheme(lines, j) && Takes(lines, j) && OnlyAppThemesBefore(lines, j))
  {
    SavedLines(text, name);
    EditsAppBlockIff(Split(text));
    EditsAppThemeIff(Split(text));
  }

  lemma AppIsNoTheme(line: string)
    requires "app:" <= Trim(line)
    ensures !IsTheme(line)
  {
    assert Trim(line)[0] == 'a';
  }

  /** Every file of a top-level app: line, another top-level line and an editable
      theme line below that: saving rewrites the theme of the other block. */
  lemma ThemeOfAnotherBlockIsEdited(app: string, other: string, theme: string, name: string)
    requires OneLine(app) && OneLine(other) && OneLine(theme)
    requires IsTopApp(app) && Lead(other) == 0 && !Skipped(other) && !IsTheme(other)
    requires Editable(theme, IndentOf(app))
    ensures var text := Join([app, other, theme]);
            && Save(text, name) == Some(Join([app, other, EditLine(theme, name)]))
            && Found(text) == 2 && !InTopBlock(Split(text), 2)
  {
    var lines := [app, other, theme];
    SplitJoin(lines);
    assert "app" + ":" == "app:";
    AppIsNoTheme(app);
    FindIsUnique(lines, IndentOf(app), 2);
    assert lines[2 := EditLine(theme, name)] == [app, other, EditLine(theme, name)];
    assert !Skipped(lines[1]) && Lead(lines[1]) == 0;
  }

  /** Every file in which the first app: line is nested in another block and has a
      theme below it: saving rewrites that theme and leaves app.theme alone. */
  lemma ThemeOfNestedAppIsEdited(db: string, nested: string, theme: string, app: string, own: string, name: string)
    requires OneLine(db) && OneLine(nested) && OneLine(theme) && OneLine(app) && OneLine(own)
    requires !IsTheme(db) && !("app:" <= Trim(db)) && "app:" <= Trim(nested) && Lead(nested) > 0
    requires Editable(theme, IndentOf(nested)) && IsTopApp(app)
    ensures var text := Join([db, nested, theme, app, own]);
            && Save(text, name) == Some(Join([db, nested, EditLine(theme, name), app, own]))
            && Found(text) == 2 && TopApp(Split(text)) == 3 && !InTopBlock(Split(text), 2)
  {
    var lines := [db, nested, theme, app, own];
    SplitJoin(lines);
    NestedAppLines(lines);
    FindIsUnique(lines, IndentOf(nested), 2);
    assert lines[2 := EditLine(theme, name)] == [db, nested, EditLine(theme, name), app, own];
  }

  lemma NestedAppLines(lines: seq<string>)
    requires |lines| == 5 && !("app:" <= Trim(lines[0])) && "app:" <= Trim(lines[1]) && Lead(lines[1]) > 0
    requires IsTheme(lines[2]) && IsTopApp(lines[3])
    ensures AppIndent(lines) == IndentOf(lines[1]) && TopApp(lines) == 3 && !IsTheme(lines[1])
  {
    assert "app" + ":" == "app:";
    AppIsNoTheme(lines[1]);
    assert !IsTopApp(lines[0]) && !IsTopApp(lines[1]);
    if IsTopApp(lines[2]) {
      AppIsNoTheme(lines[2]);
    }
    var i := TopApp(lines);
    assert i >= 3 && i <= 3;
    assert AppIndent(lines) == AppIndent(lines[1..]) && lines[1..][0] == lines[1];
  }

  lemma TrimContent(n: nat, content: string)
    requires content != "" && !IsSpace(content[0]) && !IsSpace(content[|content| - 1])
    ensures Trim(Spaces(n) + content) == content
    ensures IndentOf(Spaces(n) + content) == n == Lead(Spaces(n) + content)
  {
    TrimLeftSpaces(n, content);
  }

  /** A key is followed by white space or the end of the line. */
  lemma KeyLine(n: nat, key: string, rest: string)
    requires key != "" && !IsSpace(key[0]) && (rest != "" ==> !IsSpace(rest[|rest| - 1]))
    ensures IsKey(Spaces(n) + (key + ":" + rest), key) <==> rest == "" || IsSpace(rest[0])
  {
    var content := key + ":" + rest;
    TrimContent(n, content);
    assert content[..|key| + 1] == key + ":";
  }

  /** Such a file exists: the lines "app:", "db:" and "  theme: x". */
  lemma OtherBlockFile(app: string, db: string, theme: string, name: string)
    requires app == Spaces(0) + "app:" && db == Spaces(0) + "db:" && theme == Spaces(2) + "theme: x"
    ensures var text := Join([app, db, theme]);
            && Save(text, name) == Some(Join([app, db, EditLine(theme, name)]))
            && !InTopBlock(Split(text), Found(text))
  {
    TrimContent(0, "app:");
    TrimContent(0, "db:");
    TrimContent(2, "theme: x");
    assert "app" + ":" == "app:" && "theme: x"[..6] == "theme:";
    ThemeOfAnotherBlockIsEdited(app, db, theme, name);
  }

  /** The indentation of the theme line is kept if and only if the line has no
      trailing white space: what was trimmed on the right comes back on the left. */
  lemma IndentKeptIff(line: string, name: string)
    ensures Lead(EditLine(line, name)) == Lead(line) + (|TrimLeft(line)| - |Trim(line)|)
    ensures Lead(EditLine(line, name)) == Lead(line) <==> Trim(line) == TrimLeft(line)
  {
    TrimRightWidth(TrimLeft(line));
    LeadAfterEdit(line, name);
  }

  lemma LeadAfterEdit(line: string, name: string)
    ensures Lead(EditLine(line, name)) == IndentOf(line)
  {
    var c := Content(name, CommentOf(line));
    TrimLeftSpaces(IndentOf(line), c);
    EditedLineShape(line, name);
  }

  // Reading a name back

  function HexValue(c: char): int {
    if '0' <= c <= '9' then c as int - '0' as int else if 'a' <= c <= 'f' then c as int - 'a' as int + 10 else 0
  }

  /** Reads an escaped name up to the closing quote. */
  function Unquote(s: string): string {
    if s == "" || s[0] == '"' then ""
    else if s[0] != '\\' then [s[0]] + Unquote(s[1..])
    else if |s| < 2 then ""
    else if s[1] == 'x' && |s| >= 4 then [(16 * HexValue(s[2]) + HexValue(s[3])) as char] + Unquote(s[4..])
    else
      var c := match s[1]
        case 'a' => 7 as char
        case 'b' => 8 as char
        case 't' => '\t'
        case 'n' => '\n'
        case 'v' => 11 as char
        case 'f' => 12 as char
        case 'r' => '\r'
        case other => other;
      [c] + Unquote(s[2..])
  }

  lemma HexDigits(n: nat)
    requires n < 128
    ensures HexValue(HEX[n / 16]) == n / 16 && HexValue(HEX[n % 16]) == n % 16
  {
  }

  predicate IsHexEscaped(c: char) {
    (c as int < 32 && !(7 <= c as int <= 13)) || c as int == 127
  }

  lemma UnquoteHex(c: char, rest: string)
    requires IsHexEscaped(c)
    ensures Unquote(Escape(c) + rest) == [c] + Unquote(rest)
  {
    HexDigits(c as int);
    var s := "\\x" + [HEX[c as int / 16], HEX[c as int % 16]] + rest;
    assert s == Escape(c) + rest;
    assert s[4..] == rest;
  }

  lemma UnquoteNamed(c: char, rest: string)
    requires 7 <= c as int <= 13 || c == '"' || c == '\\'
    ensures Unquote(Escape(c) + rest) == [c] + Unquote(rest)
  {
    var e := Escape(c);
    assert |e| == 2 && e[0] == '\\' && e[1] != 'x';
    assert (e + rest)[2..] == rest;
  }

  lemma UnquotePlain(c: char, rest: string)
    requires !IsHexEscaped(c) && !(7 <= c as int <= 13) && c != '"' && c != '\\'
    ensures Unquote(Escape(c) + rest) == [c] + Unquote(rest)
  {
    assert Escape(c) == [c];
    assert ([c] + rest)[1..] == rest;
  }

  lemma UnquoteOne(c: char, rest: string)
    ensures Unquote(Escape(c) + rest) == [c] + Unquote(rest)
  {
    if IsHexEscaped(c) {
      UnquoteHex(c, rest);
    } else if 7 <= c as int <= 13 || c == '"' || c == '\\' {
      UnquoteNamed(c, rest);
    } else {
      UnquotePlain(c, rest);
    }
  }

  lemma Regroup(a: string, b: string, c: string)
    ensures (a + b) + c == a + (b + c)
  {
  }

  lemma {:induction false} UnescapeAll(name: string, tail: string)
    requires tail != "" && tail[0] == '"'
    ensures Unquote(EscapeAll(name) + tail) == name
  {
    if name == "" {
      assert "" + tail == tail;
    } else {
      var e := EscapeAll(name[1..]);
      UnescapeAll(name[1..], tail);
      Regroup(Escape(name[0]), e, tail);
      UnquoteOne(name[0], e + tail);
      assert [name[0]] + name[1..] == name;
    }
  }

  lemma AfterFirstQuote(inner: string, rest: string)
    ensures (("\"" + inner + "\"") + rest)[1..] == inner + ("\"" + rest)
  {
  }

  /** The stored name reads back: nothing of it is lost in the quotes, whatever
      follows on the line. */
  lemma QuoteRoundTrip(name: string, rest: string)
    ensures Unquote((Quote(name) + rest)[1..]) == name
  {
    AfterFirstQuote(EscapeAll(name), rest);
    UnescapeAll(name, "\"" + rest);
  }

  /** The name stands between two quotes. */
  lemma QuoteShape(name: string)
    ensures |Quote(name)| >= 2 && Quote(name)[0] == '"' == Quote(name)[|Quote(name)| - 1]
  {
  }

  predicate Plain(c: char) {
    32 <= c as int < 127 && c != '"' && c != '\\'
  }

  /** A name of plain characters is quoted as it is. */
  lemma {:induction false} PlainNameIsKept(name: string)
    requires forall c :: c in name ==> Plain(c)
    ensures EscapeAll(name) == name && Quote(name) == "\"" + name + "\""
  {
    if name != "" {
      PlainNameIsKept(name[1..]);
      assert name[0] in name;
      assert Escape(name[0]) == [name[0]] && name == [name[0]] + name[1..];
    }
  }

  // The loops

  /** The first loop: the indent of the first app: line. */
  method FindAppIndent(lines: seq<string>) returns (appIndent: int)
    ensures appIndent == AppIndent(lines)
  {
    appIndent := -1;
    for k := 0 to |lines|
      invariant appIndent == -1 && AppIndent(lines) == AppIndent(lines[k..])
    {
      assert lines[k..][1..] == lines[k + 1..];
      var trimmed := Trim(lines[k]);
      if "app:" <= trimmed {
        Width(lines[k]);
        appIndent := |lines[k]| - |trimmed|;
        break;
      }
    }
  }

  /** The second loop: edits the first editable line. */
  method EditFirst(given: seq<string>, appIndent: int, name: string) returns (lines: seq<string>, replaced: bool)
    ensures replaced <==> FindTheme(given, appIndent) < |given|
    ensures replaced ==> var i := FindTheme(given, appIndent); lines == given[i := EditLine(given[i], name)]
    ensures !replaced ==> lines == given
  {
    lines, replaced := given, false;
    for i := 0 to |given|
      invariant lines == given && !replaced
      invariant forall j :: 0 <= j < i ==> !Editable(given[j], appIndent)
    {
      var line := lines[i];
      var trimmed := Trim(line);
      if !("theme:" <= trimmed) {
        continue;
      }
      Width(line);
      var indent := |line| - |trimmed|;
      if appIndent >= 0 && indent <= appIndent {
        continue;
      }
      FindIsUnique(given, appIndent, i);
      var comment := "";
      var tail := FromHash(trimmed);
      if tail != "" {
        comment := " " + tail;
      }
      lines := lines[i := Spaces(indent) + "theme: " + Quote(name) + comment];
      replaced := true;
      return;
    }
  }

  method SaveThemeText(text: string, name: string) returns (result: Option<string>)
    ensures result == Save(text, name)
    ensures result.Some? ==> Split(result.value) == Split(text)[Found(text) := EditLine(Split(text)[Found(text)], name)]
  {
    var appIndent := FindAppIndent(Split(text));
    var lines, replaced := EditFirst(Split(text), appIndent, name);
    if replaced {
      result := Some(Join(lines));
      SavedLines(text, name);
    } else {
      result := None;
    }
  }
}
