/** Wrapping a text into a column of a given width: Catch2's TextFlow, for texts without ANSI escapes. */
module TextFlow {
  import opened Options

  predicate IsWhitespace(c: char) {
    c == ' ' || c == '\t' || c == '\n' || c == '\r'
  }

  predicate IsBreakableBefore(c: char) {
    c == '[' || c == '(' || c == '{' || c == '<' || c == '|'
  }

  predicate IsBreakableAfter(c: char) {
    || c == ']' || c == ')' || c == '}' || c == '>' || c == '.' || c == ',' || c == ':' || c == ';'
    || c == '*' || c == '+' || c == '-' || c == '=' || c == '&' || c == '/' || c == '\\'
  }

  /** A line may end just before position it. */
  predicate IsBoundary(text: string, it: nat)
    requires 0 < it <= |text|
  {
    || it == |text|
    || (IsWhitespace(text[it]) && !IsWhitespace(text[it - 1]))
    || IsBreakableBefore(text[it])
    || IsBreakableAfter(text[it - 1])
  }

  /** Before which and after which characters a line may end, and between which. */
  lemma BoundaryExactly(text: string, it: nat)
    requires 0 < it < |text|
    ensures IsBoundary(text, it) <==>
              || text[it] in "[({<|" || text[it - 1] in "])}>.,:;*+-=&/\\"
              || (text[it] in " \t\n\r" && text[it - 1] !in " \t\n\r")
  {
    assert forall c: char :: c in "[({<|" <==> IsBreakableBefore(c);
    assert forall c: char :: c in "])}>.,:;*+-=&/\\" <==> IsBreakableAfter(c);
    assert forall c: char :: c in " \t\n\r" <==> IsWhitespace(c);
  }

  predicate Blank(s: string) {
    forall i | 0 <= i < |s| :: IsWhitespace(s[i])
  }

  /** The characters of s that are not whitespace, in order. */
  function Visible(s: string): string {
    if s == "" then ""
    else Visible(s[..|s| - 1]) + if IsWhitespace(s[|s| - 1]) then "" else [s[|s| - 1]]
  }

  lemma {:induction false} VisibleConcat(s: string, t: string)
    ensures Visible(s + t) == Visible(s) + Visible(t)
  {
    if t == "" {
      assert s + t == s;
    } else {
      assert (s + t)[..|s + t| - 1] == s + t[..|t| - 1];
      VisibleConcat(s, t[..|t| - 1]);
    }
  }

  lemma {:induction false} BlankIsInvisible(s: string)
    requires Blank(s)
    ensures Visible(s) == ""
  {
    if s != "" {
      BlankIsInvisible(s[..|s| - 1]);
    }
  }

  // ---------------------------------------------------------------- one line

  /** A line of the column: the text from start to end, with a hyphen if a word had to be cut. */
  datatype Line = Line(start: nat, end: nat, hyphen: bool)

  /** Where the countable part of a line starts: past one leading newline. */
  function ContentStart(text: string, start: nat): nat
    requires start < |text|
  {
    if text[start] == '\n' then start + 1 else start
  }

  /** How many characters follow from, up to a newline, the end of the text, or room. */
  function Scan(text: string, from: nat, room: nat): (n: nat)
    requires from <= |text|
    ensures n <= room && from + n <= |text|
    ensures n < room ==> from + n == |text| || text[from + n] == '\n'
    decreases room
  {
    if from < |text| && room > 0 && text[from] != '\n' then 1 + Scan(text, from + 1, room - 1) else 0
  }

  /** The longest part, of at most n characters, that ends at a boundary; or nothing. */
  function LastBoundary(text: string, from: nat, n: nat): (k: nat)
    requires from + n <= |text|
    ensures k <= n && (k > 0 ==> IsBoundary(text, from + k))
  {
    if n == 0 || IsBoundary(text, from + n) then n else LastBoundary(text, from, n - 1)
  }

  /** The part without the whitespace at its end. */
  function Stripped(text: string, from: nat, n: nat): (k: nat)
    requires from + n <= |text|
    ensures k <= n && (k > 0 ==> !IsWhitespace(text[from + k - 1]))
  {
    if n > 0 && IsWhitespace(text[from + n - 1]) then Stripped(text, from, n - 1) else n
  }

  lemma {:induction false} ScannedHasNoNewline(text: string, from: nat, room: nat)
    requires from <= |text|
    ensures forall i | from <= i < from + Scan(text, from, room) :: text[i] != '\n'
    ensures (from + room <= |text| && forall i | from <= i < from + room :: text[i] != '\n')
            ==> Scan(text, from, room) == room
    decreases room
  {
    if from < |text| && room > 0 && text[from] != '\n' {
      ScannedHasNoNewline(text, from + 1, room - 1);
    }
  }

  lemma {:induction false} NoLaterBoundary(text: string, from: nat, n: nat)
    requires from + n <= |text|
    ensures forall b | from + LastBoundary(text, from, n) < b <= from + n :: !IsBoundary(text, b)
  {
    if n > 0 && !IsBoundary(text, from + n) {
      NoLaterBoundary(text, from, n - 1);
    }
  }

  lemma {:induction false} StrippedIsBlank(text: string, from: nat, n: nat)
    requires from + n <= |text|
    ensures Blank(text[from + Stripped(text, from, n)..from + n])
  {
    var k := Stripped(text, from, n);
    if n > 0 && IsWhitespace(text[from + n - 1]) {
      StrippedIsBlank(text, from, n - 1);
      assert text[from + k..from + n] == text[from + k..from + n - 1] + [text[from + n - 1]];
    }
  }

  function EndOfContent(text: string, from: nat, room: nat): (nat, bool)
    requires from <= |text| && room > 0
  {
    var n := Scan(text, from, room);
    if n < room then (from + n, false)
    else
      var k := Stripped(text, from, LastBoundary(text, from, n));
      if k > 0 then (from + k, false) else (from + n - 1, true)
  }

  /** The line that starts at start in a column with room for that many characters. */
  function LineAt(text: string, start: nat, room: nat): Line
    requires start < |text| && room > 0
  {
    var (end, hyphen) := EndOfContent(text, ContentStart(text, start), room);
    Line(start, end, hyphen)
  }

  /** Content and hyphen together never take more than the room there is. */
  lemma LineFits(text: string, start: nat, room: nat)
    requires start < |text| && room > 0
    ensures var line := LineAt(text, start, room);
            && ContentStart(text, start) <= line.end <= |text|
            && line.end - ContentStart(text, start) + (if line.hyphen then 1 else 0) <= room
  {
  }

  ghost predicate WindowFull(text: string, start: nat, room: nat)
    requires start < |text|
  {
    var from := ContentStart(text, start);
    from + room <= |text| && forall i | from <= i < from + room :: text[i] != '\n'
  }

  /** A word is cut exactly when the line is full and every boundary in it has only whitespace before it. */
  lemma HyphenExactly(text: string, start: nat, room: nat)
    requires start < |text| && room > 0
    ensures LineAt(text, start, room).hyphen <==>
            && WindowFull(text, start, room)
            && forall b | ContentStart(text, start) < b <= ContentStart(text, start) + room ::
                 IsBoundary(text, b) ==> Blank(text[ContentStart(text, start)..b])
  {
    var from := ContentStart(text, start);
    var n := Scan(text, from, room);
    ScannedHasNoNewline(text, from, room);
    if n == room {
      OnlyBlankBoundaries(text, from, n);
    }
  }

  /** Nothing is left before the last boundary exactly if every boundary has only whitespace before it. */
  lemma OnlyBlankBoundaries(text: string, from: nat, n: nat)
    requires from + n <= |text|
    ensures Stripped(text, from, LastBoundary(text, from, n)) == 0
       <==> forall b | from < b <= from + n :: IsBoundary(text, b) ==> Blank(text[from..b])
  {
    var last := LastBoundary(text, from, n);
    var k := Stripped(text, from, last);
    StrippedIsBlank(text, from, last);
    if k == 0 {
      NoLaterBoundary(text, from, n);
      forall b | from < b <= from + n && IsBoundary(text, b) ensures Blank(text[from..b]) {
        assert text[from..b] == text[from..from + last][..b - from];
      }
    } else {
      assert !IsWhitespace(text[from..from + last][k - 1]);
      assert IsBoundary(text, from + last);
    }
  }

  /** Without a cut word a line ends where the text ends, at a newline, or with visible text before the last boundary. */
  lemma NaturalEnd(text: string, start: nat, room: nat)
    requires start < |text| && room > 0 && !LineAt(text, start, room).hyphen
    ensures var end := LineAt(text, start, room).end;
            && end <= |text|
            && (end == |text| || text[end] == '\n'
            || (0 < end && !IsWhitespace(text[end - 1]) && BoundaryAfter(text, end, ContentStart(text, start) + room)))
  {
    var from := ContentStart(text, start);
    var n := Scan(text, from, room);
    if n == room {
      StrippedIsBlank(text, from, LastBoundary(text, from, n));
      var b := from + LastBoundary(text, from, n);
      assert IsBoundary(text, b);
    }
  }

  /** From end on there is only whitespace up to a boundary no later than limit. */
  ghost predicate BoundaryAfter(text: string, end: nat, limit: nat)
    requires end <= |text|
  {
    exists b: nat :: end <= b <= limit && 0 < b <= |text| && IsBoundary(text, b) && Blank(text[end..b])
  }

  // ---------------------------------------------------------------- what a line is

  /** The text, or a newline, ends before the room is used up. */
  ghost predicate EndsEarly(text: string, from: nat, end: nat, room: nat) {
    && from <= end <= |text| && end < from + room && (end == |text| || text[end] == '\n')
    && forall i | from <= i < end :: text[i] != '\n'
  }

  /** No boundary up to limit has anything but whitespace between end and itself. */
  ghost predicate NoMoreFits(text: string, end: nat, limit: nat) {
    forall b | end < b <= limit && b <= |text| && IsBoundary(text, b) :: Blank(text[end..b])
  }

  /**
  What a line has to be: up to the end of the text or of its paragraph if that fits, else as much as fits
  and ends in a visible character before a boundary, or if there is no such part, cut with a hyphen
  in the last place.
   */
  ghost predicate IsLine(text: string, start: nat, room: nat, end: nat, hyphen: bool)
    requires start < |text|
  {
    var from := if text[start] == '\n' then start + 1 else start;
    if WindowFull(text, start, room) then IsFullLine(text, from, room, end, hyphen)
    else !hyphen && EndsEarly(text, from, end, room)
  }

  ghost predicate IsFullLine(text: string, from: nat, room: nat, end: nat, hyphen: bool) {
    if hyphen then end + 1 == from + room && NoMoreFits(text, from, from + room)
    else
      && from < end <= from + room <= |text| && !IsWhitespace(text[end - 1])
      && BoundaryAfter(text, end, from + room) && NoMoreFits(text, end, from + room)
  }

  /** With last the last boundary in the room, and end before the whitespace in front of it. */
  lemma BreakIs(text: string, from: nat, room: nat, last: nat, end: nat)
    requires from <= end <= last <= from + room <= |text| && room > 0
    requires last > from ==> IsBoundary(text, last)
    requires forall b | last < b <= from + room :: !IsBoundary(text, b)
    requires Blank(text[end..last]) && (end > from ==> !IsWhitespace(text[end - 1]))
    ensures if end > from then IsFullLine(text, from, room, end, false) else IsFullLine(text, from, room, from + room - 1, true)
  {
    forall b | end < b <= from + room && b <= |text| && IsBoundary(text, b) ensures Blank(text[end..b]) {
      assert text[end..b] == text[end..last][..b - end];
    }
  }

  lemma FullLineIs(text: string, from: nat, room: nat)
    requires from + room <= |text| && room > 0
    ensures var k := Stripped(text, from, LastBoundary(text, from, room));
            if k > 0 then IsFullLine(text, from, room, from + k, false) else IsFullLine(text, from, room, from + room - 1, true)
  {
    var n := LastBoundary(text, from, room);
    StrippedIsBlank(text, from, n);
    NoLaterBoundary(text, from, room);
    BreakIs(text, from, room, from + n, from + Stripped(text, from, n));
  }

  lemma ScanIs(text: string, start: nat, room: nat)
    requires start < |text| && room > 0
    ensures var from := ContentStart(text, start);
            var n := Scan(text, from, room);
            && (n == room <==> WindowFull(text, start, room))
            && (n < room ==> EndsEarly(text, from, from + n, room))
  {
    ScannedHasNoNewline(text, ContentStart(text, start), room);
  }

  /** The lines of the column are such lines. */
  lemma LineAtIs(text: string, start: nat, room: nat)
    requires start < |text| && room > 0
    ensures IsLine(text, start, room, LineAt(text, start, room).end, LineAt(text, start, room).hyphen)
  {
    var from := ContentStart(text, start);
    ScanIs(text, start, room);
    ContentIs(text, from, room, Scan(text, from, room));
  }

  lemma ContentIs(text: string, from: nat, room: nat, n: nat)
    requires from <= |text| && room > 0 && n == Scan(text, from, room)
    ensures var (end, hyphen) := EndOfContent(text, from, room);
            if n == room then IsFullLine(text, from, room, end, hyphen) else end == from + n && !hyphen
  {
    if n == room {
      FullLineIs(text, from, room);
    }
  }

  lemma NotFurther(text: string, end: nat, end': nat, limit: nat)
    requires 0 < end' <= limit <= |text| && NoMoreFits(text, end, limit) && BoundaryAfter(text, end', limit)
    ensures end < end' ==> IsWhitespace(text[end' - 1])
  {
    if end < end' {
      var b: nat :| end' <= b <= limit && 0 < b <= |text| && IsBoundary(text, b) && Blank(text[end'..b]);
      assert Blank(text[end..b]);
      assert text[end..b][end' - 1 - end] == text[end' - 1];
    }
  }

  /** And there is only one. */
  lemma OneLine(text: string, start: nat, room: nat, end: nat, hyphen: bool, end': nat, hyphen': bool)
    requires start < |text| && room > 0 && IsLine(text, start, room, end, hyphen) && IsLine(text, start, room, end', hyphen')
    ensures end == end' && hyphen == hyphen'
  {
    var from := if text[start] == '\n' then start + 1 else start;
    if WindowFull(text, start, room) {
      if !hyphen' {
        NotFurther(text, if hyphen then from else end, end', from + room);
      }
      if !hyphen {
        NotFurther(text, if hyphen' then from else end', end, from + room);
      }
    }
  }

  lemma OnlyLineAt(text: string, line: Line, room: nat)
    requires line.start < |text| && room > 0 && IsLine(text, line.start, room, line.end, line.hyphen)
    ensures line == LineAt(text, line.start, room)
  {
    var measured := LineAt(text, line.start, room);
    LineAtIs(text, line.start, room);
    OneLine(text, line.start, room, line.end, line.hyphen, measured.end, measured.hyphen);
  }

  /** One place is too little for a character that would need a hyphen after it. */
  predicate Stuck(text: string, start: nat, room: int)
    requires start < |text|
  {
    room == 1 && text[start] != '\n' && (IsWhitespace(text[start]) || !IsBoundary(text, start + 1))
  }

  /** A line makes progress exactly when it is not stuck; two places are always enough. */
  lemma ProgressExactly(text: string, start: nat, room: nat)
    requires start < |text| && room > 0
    ensures LineAt(text, start, room).end > start <==> !Stuck(text, start, room)
  {
    if room == 1 && text[start] != '\n' {
      assert Scan(text, start, 1) == 1 + Scan(text, start + 1, 0) == 1;
    }
  }

  /** Where the next line starts: past one newline, or past all whitespace. */
  function NextStart(text: string, end: nat): (next: nat)
    requires end <= |text|
    ensures end <= next <= |text|
  {
    if end < |text| && text[end] == '\n' then end + 1 else SkipWhitespace(text, end)
  }

  function SkipWhitespace(text: string, i: nat): (next: nat)
    requires i <= |text|
    ensures i <= next <= |text|
    ensures next < |text| ==> !IsWhitespace(text[next])
    decreases |text| - i
  {
    if i < |text| && IsWhitespace(text[i]) then SkipWhitespace(text, i + 1) else i
  }

  lemma {:induction false} SkippedIsBlank(text: string, i: nat)
    requires i <= |text|
    ensures Blank(text[i..SkipWhitespace(text, i)])
    decreases |text| - i
  {
    if i < |text| && IsWhitespace(text[i]) {
      SkippedIsBlank(text, i + 1);
      assert text[i..SkipWhitespace(text, i)] == [text[i]] + text[i + 1..SkipWhitespace(text, i)];
    }
  }

  /** The next line starts past the newline that ended this one, or at the next visible character. */
  ghost predicate IsNext(text: string, end: nat, next: nat) {
    && end <= next <= |text|
    && if end < |text| && text[end] == '\n' then next == end + 1
       else Blank(text[end..next]) && (next < |text| ==> !IsWhitespace(text[next]))
  }

  lemma NextStartIs(text: string, end: nat)
    requires end <= |text|
    ensures IsNext(text, end, NextStart(text, end))
  {
    SkippedIsBlank(text, end);
  }

  /** Only whitespace is dropped between lines. */
  lemma DroppedIsBlank(text: string, end: nat, next: nat)
    requires IsNext(text, end, next)
    ensures Blank(text[end..next])
  {
  }

  // ---------------------------------------------------------------- the column

  datatype Column = Column(text: string, width: nat, indent: nat, initialIndent: Option<nat>) {
    function IndentAt(lineStart: nat): nat {
      if lineStart == 0 && initialIndent.Some? then initialIndent.value else indent
    }

    /** What the iterator asserts of its column: every line has room for a character. */
    predicate HasRoom() {
      indent < width && (initialIndent.Some? ==> initialIndent.value < width)
    }

    function Room(lineStart: nat): int {
      width - IndentAt(lineStart)
    }

    /** Where the iterator goes from a line that starts at s. */
    function Following(s: nat): (next: nat)
      requires HasRoom() && s < |text|
      ensures s <= next <= |text|
    {
      LineFits(text, s, Room(s));
      NextStart(text, LineAt(text, s, Room(s)).end)
    }

    /** Where the iterator is after n steps; the constructor goes to the end if its first line makes no progress. */
    function StartAfter(n: nat): (s: nat)
      requires HasRoom()
      ensures s <= |text|
    {
      if n == 0 then (if text == "" || LineAt(text, 0, Room(0)).end == 0 then |text| else 0)
      else
        var s := StartAfter(n - 1);
        if s < |text| then Following(s) else s
    }

    /** The iteration reaches the end of the text. */
    ghost predicate Ends()
      requires HasRoom()
    {
      exists n: nat :: StartAfter(n) == |text|
    }

    /** The first line makes no progress, and the iteration ends before it. */
    predicate Lost()
      requires HasRoom()
    {
      text != "" && Stuck(text, 0, Room(0))
    }

    /** From the second line on a single place is always enough, or there are more. */
    ghost predicate Finishes()
      requires HasRoom()
    {
      indent + 1 < width || text == "" || Lost() || Clear(text, Following(0))
    }

    function Render(line: Line): string
      requires line.start <= line.end <= |text|
    {
      Spaces(IndentAt(line.start)) + text[line.start..line.end] + if line.hyphen then "-" else ""
    }
  }

  function Spaces(n: nat): (s: string)
    ensures |s| == n && forall i | 0 <= i < n :: s[i] == ' '
  {
    if n == 0 then "" else [' '] + Spaces(n - 1)
  }

  /** The position of Column::const_iterator and the measurements of its current line. */
  class LineIterator {
    const column: Column
    var lineStart: nat
    var lineEnd: nat
    var parsedTo: nat
    var addHyphen: bool

    ghost predicate Measured()
      reads this
    {
      && lineStart < |column.text| && column.HasRoom()
      && CurrentLine() == LineAt(column.text, lineStart, column.Room(lineStart))
    }

    ghost function CurrentLine(): Line
      reads this
    {
      Line(lineStart, lineEnd, addHyphen)
    }

    constructor (column: Column)
      requires column.HasRoom()
      ensures this.column == column && lineStart == column.StartAfter(0)
      ensures lineStart < |column.text| ==> Measured()
    {
      this.column := column;
      lineStart, lineEnd, parsedTo, addHyphen := 0, 0, 0, false;
      new;
      CalcLength();
      if lineStart == lineEnd {
        lineStart := |column.text|;
      }
    }

    method CalcLength()
      requires column.HasRoom() && lineStart <= |column.text|
      modifies this
      ensures lineStart == old(lineStart)
      ensures if lineStart < |column.text| then Measured() else lineEnd == lineStart
    {
      var text := column.text;
      addHyphen := false;
      parsedTo := lineStart;
      if parsedTo == |text| {
        lineEnd := parsedTo;
        return;
      }
      if text[lineStart] == '\n' {
        parsedTo := parsedTo + 1;
      }
      MeasureContent(column.Room(lineStart));
    }

    /** The end of a line whose content starts at parsedTo. */
    method MeasureContent(maxLineLength: nat)
      requires parsedTo <= |column.text| && maxLineLength > 0 && !addHyphen
      modifies `parsedTo, `lineEnd, `addHyphen
      ensures (lineEnd, addHyphen) == EndOfContent(column.text, old(parsedTo), maxLineLength)
    {
      var lineLength := ScanLine(maxLineLength);
      if lineLength < maxLineLength {
        lineEnd := parsedTo;
      } else {
        BreakLine(lineLength);
      }
    }

    /** Moves parsedTo to the end of the column, of the text, or of the text's own line. */
    method ScanLine(maxLineLength: nat) returns (lineLength: nat)
      requires parsedTo <= |column.text|
      modifies `parsedTo
      ensures lineLength == Scan(column.text, old(parsedTo), maxLineLength)
      ensures parsedTo == old(parsedTo) + lineLength
    {
      var text := column.text;
      lineLength := 0;
      while parsedTo < |text| && lineLength < maxLineLength && text[parsedTo] != '\n'
        invariant parsedTo == old(parsedTo) + lineLength <= |text| && lineLength <= maxLineLength
        invariant Scan(text, old(parsedTo), maxLineLength)
                  == lineLength + Scan(text, parsedTo, maxLineLength - lineLength)
      {
        parsedTo := parsedTo + 1;
        lineLength := lineLength + 1;
      }
    }

    /** Ends a full line at the last boundary that leaves something on it, or else with a hyphen. */
    method BreakLine(n: nat)
      requires 0 < n <= parsedTo <= |column.text|
      modifies `lineEnd, `addHyphen
      ensures var k := Stripped(column.text, parsedTo - n, LastBoundary(column.text, parsedTo - n, n));
              if k > 0 then lineEnd == parsedTo - n + k && addHyphen == old(addHyphen)
              else lineEnd == parsedTo - 1 && addHyphen
    {
      lineEnd := parsedTo;
      var lineLength := BackToBoundary(n);
      lineLength := BackOverWhitespace(lineLength);
      if lineLength == 0 {
        addHyphen := true;
        lineEnd := parsedTo - 1;
      }
    }

    method BackToBoundary(n: nat) returns (lineLength: nat)
      requires n <= lineEnd <= |column.text|
      modifies `lineEnd
      ensures lineLength == LastBoundary(column.text, old(lineEnd) - n, n)
      ensures lineEnd == old(lineEnd) - n + lineLength
    {
      ghost var from := lineEnd - n;
      lineLength := n;
      while lineLength > 0 && !IsBoundary(column.text, lineEnd)
        invariant lineLength <= n && lineEnd == from + lineLength
        invariant LastBoundary(column.text, from, n) == LastBoundary(column.text, from, lineLength)
      {
        lineLength := lineLength - 1;
        lineEnd := lineEnd - 1;
      }
    }

    method BackOverWhitespace(n: nat) returns (lineLength: nat)
      requires n <= lineEnd <= |column.text|
      modifies `lineEnd
      ensures lineLength == Stripped(column.text, old(lineEnd) - n, n)
      ensures lineEnd == old(lineEnd) - n + lineLength
    {
      ghost var from := lineEnd - n;
      lineLength := n;
      while lineLength > 0 && IsWhitespace(column.text[lineEnd - 1])
        invariant lineLength <= n && lineEnd == from + lineLength
        invariant Stripped(column.text, from, n) == Stripped(column.text, from, lineLength)
      {
        lineLength := lineLength - 1;
        lineEnd := lineEnd - 1;
      }
    }

    method Current() returns (line: string)
      requires Measured() && lineEnd <= |column.text| && lineStart <= lineEnd
      ensures line == column.Render(CurrentLine())
    {
      line := Spaces(column.IndentAt(lineStart)) + column.text[lineStart..lineEnd];
      if addHyphen {
        line := line + "-";
      }
    }

    method Next()
      requires column.HasRoom() && lineEnd <= |column.text|
      modifies this
      ensures lineStart == NextStart(column.text, old(lineEnd))
      ensures lineStart < |column.text| ==> Measured()
    {
      lineStart := lineEnd;
      var text := column.text;
      if lineStart < |text| && text[lineStart] == '\n' {
        lineStart := lineStart + 1;
      } else {
        while lineStart < |text| && IsWhitespace(text[lineStart])
          invariant old(lineEnd) <= lineStart <= |text|
          invariant SkipWhitespace(text, lineStart) == SkipWhitespace(text, old(lineEnd))
        {
          lineStart := lineStart + 1;
        }
      }
      if lineStart < |text| {
        CalcLength();
      }
    }
  }

  // ---------------------------------------------------------------- the whole text

  /** The lines follow each other through the text from position 0 to at. */
  ghost predicate Follow(text: string, lines: seq<Line>, at: nat) {
    at <= |text| &&
    if lines == [] then at == 0
    else
      var last := lines[|lines| - 1];
      && last.start <= last.end && IsNext(text, last.end, at)
      && Follow(text, lines[..|lines| - 1], last.start)
  }

  lemma FollowStep(text: string, lines: seq<Line>, line: Line, next: nat)
    requires Follow(text, lines, line.start) && line.start <= line.end && IsNext(text, line.end, next)
    ensures Follow(text, lines + [line], next)
  {
    assert (lines + [line])[..|lines|] == lines;
  }

  ghost function Contents(text: string, lines: seq<Line>): string
    requires forall i | 0 <= i < |lines| :: lines[i].start <= lines[i].end <= |text|
  {
    if lines == [] then ""
    else
      var last := lines[|lines| - 1];
      Contents(text, lines[..|lines| - 1]) + text[last.start..last.end]
  }

  lemma {:induction false} FollowInBounds(text: string, lines: seq<Line>, at: nat)
    requires Follow(text, lines, at)
    ensures forall i | 0 <= i < |lines| :: lines[i].start <= lines[i].end <= at
  {
    if lines != [] {
      FollowInBounds(text, lines[..|lines| - 1], lines[|lines| - 1].start);
    }
  }

  lemma VisibleAppend(s: string, t: string, piece: string)
    requires Visible(s) == Visible(t)
    ensures Visible(s + piece) == Visible(t + piece)
  {
    VisibleConcat(s, piece);
    VisibleConcat(t, piece);
  }

  lemma BlankDropped(s: string, gap: string)
    requires Blank(gap)
    ensures Visible(s + gap) == Visible(s)
  {
    VisibleConcat(s, gap);
    BlankIsInvisible(gap);
  }

  lemma VisibleStep(text: string, contents: string, last: Line, at: nat)
    requires last.start <= last.end <= at <= |text| && Blank(text[last.end..at])
    requires Visible(contents) == Visible(text[..last.start])
    ensures Visible(contents + text[last.start..last.end]) == Visible(text[..at])
  {
    VisibleAppend(contents, text[..last.start], text[last.start..last.end]);
    assert text[..last.start] + text[last.start..last.end] == text[..last.end];
    BlankDropped(text[..last.end], text[last.end..at]);
    assert text[..last.end] + text[last.end..at] == text[..at];
  }

  /** Wrapping loses no visible character and keeps their order. */
  lemma {:induction false} NothingVisibleLost(text: string, lines: seq<Line>, at: nat)
    requires Follow(text, lines, at)
    ensures forall i | 0 <= i < |lines| :: lines[i].start <= lines[i].end <= |text|
    ensures Visible(Contents(text, lines)) == Visible(text[..at])
  {
    FollowInBounds(text, lines, at);
    if lines != [] {
      var last := lines[|lines| - 1];
      NothingVisibleLost(text, lines[..|lines| - 1], last.start);
      DroppedIsBlank(text, last.end, at);
      VisibleStep(text, Contents(text, lines[..|lines| - 1]), last, at);
    }
  }

  /** The indent of the first line, or of a later one. */
  function IndentOf(column: Column, first: bool): nat {
    match column.initialIndent
    case Some(indent) => if first then indent else column.indent
    case None => column.indent
  }

  /** The output is the line of the text from that position, indented, and fits the width, a leading newline aside. */
  ghost predicate Printed(column: Column, line: Line, output: string) {
    var text, indent := column.text, IndentOf(column, line.start == 0);
    && indent < column.width && line.start < |text| && line.start <= line.end <= |text|
    && IsLine(text, line.start, column.width - indent, line.end, line.hyphen)
    && output == Spaces(indent) + text[line.start..line.end] + (if line.hyphen then "-" else "")
    && |output| <= column.width + if text[line.start] == '\n' then 1 else 0
  }

  ghost predicate AllPrinted(column: Column, lines: seq<Line>, output: seq<string>) {
    |output| == |lines| && forall i | 0 <= i < |lines| :: Printed(column, lines[i], output[i])
  }

  lemma AllPrintedStep(column: Column, lines: seq<Line>, output: seq<string>, line: Line, printed: string)
    requires AllPrinted(column, lines, output) && Printed(column, line, printed)
    ensures AllPrinted(column, lines + [line], output + [printed])
  {
  }

  lemma MeasuredIsPrinted(column: Column, line: Line)
    requires column.HasRoom() && line.start < |column.text|
    requires line == LineAt(column.text, line.start, column.Room(line.start))
    ensures line.start <= line.end <= |column.text|
    ensures Printed(column, line, column.Render(line))
  {
    LineFits(column.text, line.start, column.Room(line.start));
    LineAtIs(column.text, line.start, column.Room(line.start));
    assert column.IndentAt(line.start) == IndentOf(column, line.start == 0);
  }

  // ---------------------------------------------------------------- when the iteration ends

  /** Every visible character from position from on may end a line. */
  ghost predicate Clear(text: string, from: nat) {
    forall i | from <= i < |text| && !IsWhitespace(text[i]) :: IsBoundary(text, i + 1)
  }

  /** All text is dropped, without a line, exactly if its first character is stuck in the first line's room. */
  lemma LostExactly(column: Column)
    requires column.HasRoom() && column.text != ""
    ensures column.StartAfter(0) == |column.text| <==> column.Lost()
    ensures !column.Lost() ==> column.StartAfter(0) == 0
  {
    ProgressExactly(column.text, 0, column.Room(0));
    LineFits(column.text, 0, column.Room(0));
  }

  /** A line is followed by itself exactly if it is stuck and starts with a visible character. */
  lemma SelfFollowing(column: Column, start: nat)
    requires column.HasRoom() && start < |column.text|
    ensures column.Following(start) == start
       <==> Stuck(column.text, start, column.Room(start)) && !IsWhitespace(column.text[start])
  {
    var text, room := column.text, column.Room(start);
    ProgressExactly(text, start, room);
    LineFits(text, start, room);
  }

  /** A start after the first at which the iterator stays. */
  ghost predicate Sticks(column: Column, n: nat)
    requires column.HasRoom()
  {
    var s := column.StartAfter(n);
    n > 0 && s < |column.text| && Stuck(column.text, s, column.Room(s)) && !IsWhitespace(column.text[s])
  }

  lemma StepOf(column: Column, n: nat)
    requires column.HasRoom()
    ensures column.StartAfter(n + 1)
         == if column.StartAfter(n) < |column.text| then column.Following(column.StartAfter(n)) else column.StartAfter(n)
  {
  }

  /** The iterator does not leave position s. */
  ghost predicate Stays(column: Column, s: nat)
    requires column.HasRoom()
  {
    s == |column.text| || (s < |column.text| && column.Following(s) == s)
  }

  /** A run whose position s is followed by s never leaves it. */
  lemma {:induction false} RunStays(run: nat -> nat, s: nat, n: nat, m: nat)
    requires forall k: nat :: run(k) == s ==> run(k + 1) == s
    requires n <= m && run(n) == s
    ensures run(m) == s
  {
    if n < m {
      RunStays(run, s, n, m - 1);
      assert run(m - 1 + 1) == s;
    }
  }

  lemma StaysOnce(column: Column, s: nat, k: nat)
    requires column.HasRoom() && Stays(column, s) && column.StartAfter(k) == s
    ensures column.StartAfter(k + 1) == s
  {
    StepOf(column, k);
  }

  lemma StaysForever(column: Column, n: nat, m: nat)
    requires column.HasRoom() && n <= m && Stays(column, column.StartAfter(n))
    ensures column.StartAfter(m) == column.StartAfter(n)
  {
    var s := column.StartAfter(n);
    var run := (k: nat) => column.StartAfter(k);
    forall k: nat ensures run(k) == s ==> run(k + 1) == s {
      if column.StartAfter(k) == s {
        StaysOnce(column, s, k);
      }
    }
    RunStays(run, s, n, m);
  }

  /** A stuck line after the first that starts with a visible character comes again and again. */
  lemma StuckForever(column: Column, n: nat, m: nat)
    requires column.HasRoom() && Sticks(column, n) && n <= m
    ensures column.StartAfter(m) == column.StartAfter(n)
  {
    SelfFollowing(column, column.StartAfter(n));
    StaysForever(column, n, m);
  }

  lemma EndIsLast(column: Column, n: nat, m: nat)
    requires column.HasRoom() && n <= m && column.StartAfter(n) == |column.text|
    ensures column.StartAfter(m) == |column.text|
  {
    StaysForever(column, n, m);
  }

  /** The first step from 0 moves on. */
  lemma FirstMoves(column: Column)
    requires column.HasRoom() && column.StartAfter(0) < |column.text|
    ensures column.Following(0) > 0 == column.StartAfter(0)
  {
    LineFits(column.text, 0, column.Room(0));
  }

  /** A step from a line start that does not stick moves on. */
  lemma StepMoves(column: Column, n: nat)
    requires column.HasRoom() && !Sticks(column, n) && column.StartAfter(n) < |column.text|
    ensures column.StartAfter(n) < column.StartAfter(n + 1) == column.Following(column.StartAfter(n))
  {
    StepOf(column, n);
    if n == 0 {
      FirstMoves(column);
    } else {
      SelfFollowing(column, column.StartAfter(n));
    }
  }

  ghost predicate Advances(run: nat -> nat, end: nat, k: nat) {
    run(k) < run(k + 1) <= end || run(k) == run(k + 1) == end
  }

  /** A run that moves on at each step, until its end, is at its end after that many steps. */
  lemma {:induction false} RunArrives(run: nat -> nat, end: nat, n: nat)
    requires forall k: nat :: Advances(run, end, k)
    ensures run(n) >= n || run(n) == end
  {
    if n > 0 {
      RunArrives(run, end, n - 1);
      assert Advances(run, end, n - 1);
    }
  }

  lemma MovesOn(column: Column)
    requires column.HasRoom() && forall k: nat :: !Sticks(column, k)
    ensures column.StartAfter(|column.text|) == |column.text|
  {
    var run := (k: nat) => column.StartAfter(k);
    var end := |column.text|;
    forall k: nat ensures Advances(run, end, k) {
      if column.StartAfter(k) < end {
        assert !Sticks(column, k);
        StepMoves(column, k);
      } else {
        StepOf(column, k);
      }
    }
    RunArrives(run, end, end);
  }

  /** The iteration ends exactly if it reaches no stuck line, after the first, that starts with a visible character. */
  lemma EndsUnlessStuck(column: Column)
    requires column.HasRoom()
    ensures column.Ends() <==> forall n: nat :: !Sticks(column, n)
  {
    if forall n: nat :: !Sticks(column, n) {
      MovesOn(column);
    } else {
      var n: nat :| Sticks(column, n);
      forall m: nat ensures column.StartAfter(m) != |column.text| {
        if n <= m {
          StuckForever(column, n, m);
        } else if column.StartAfter(m) == |column.text| {
          EndIsLast(column, m, n);
        }
      }
    }
  }

  /** With a single place no line passes a visible character that may not end a line. */
  lemma NotPast(column: Column, s: nat, i: nat)
    requires column.HasRoom() && s <= i < |column.text| && column.Room(s) == 1
    requires !IsWhitespace(column.text[i]) && !IsBoundary(column.text, i + 1)
    ensures column.Following(s) <= i
  {
    var text := column.text;
    var from := ContentStart(text, s);
    LineFits(text, s, 1);
    if from == i {
      SelfScan(text, i);
    }
    SkipStops(text, LineAt(text, s, 1).end, i);
  }

  lemma SelfScan(text: string, i: nat)
    requires i < |text| && !IsWhitespace(text[i]) && !IsBoundary(text, i + 1)
    ensures EndOfContent(text, i, 1) == (i, true)
  {
    assert Scan(text, i, 1) == 1 + Scan(text, i + 1, 0) == 1;
    assert LastBoundary(text, i, 1) == LastBoundary(text, i, 0) == 0;
  }

  /** The whitespace between lines ends before a visible character. */
  lemma {:induction false} SkipStops(text: string, end: nat, i: nat)
    requires end <= i < |text| && !IsWhitespace(text[i])
    ensures SkipWhitespace(text, end) <= i && NextStart(text, end) <= i
    decreases i - end
  {
    if IsWhitespace(text[end]) {
      SkipStops(text, end + 1, i);
    }
  }

  lemma {:induction false} StaysBefore(column: Column, n: nat, i: nat)
    requires column.HasRoom() && column.indent + 1 == column.width && column.StartAfter(0) < |column.text|
    requires column.Following(0) <= i < |column.text| && n > 0
    requires !IsWhitespace(column.text[i]) && !IsBoundary(column.text, i + 1)
    ensures 0 < column.StartAfter(n) <= i
  {
    FirstMoves(column);
    if n > 1 {
      StaysBefore(column, n - 1, i);
      NotPast(column, column.StartAfter(n - 1), i);
    } else {
      assert column.StartAfter(1) == column.Following(column.StartAfter(0));
    }
  }

  lemma {:induction false} PastTheSecond(column: Column, n: nat)
    requires column.HasRoom() && column.StartAfter(0) < |column.text| && n > 0
    ensures 0 < column.Following(0) <= column.StartAfter(n)
  {
    FirstMoves(column);
    if n > 1 {
      PastTheSecond(column, n - 1);
    } else {
      assert column.StartAfter(1) == column.Following(column.StartAfter(0));
    }
  }

  /**
  The iteration ends exactly if there are two places after the indent, or the text is empty or lost,
  or every visible character from the second line on may end a line.
   */
  lemma EndsExactly(column: Column)
    requires column.HasRoom()
    ensures column.Ends() <==> column.Finishes()
  {
    if column.StartAfter(0) == |column.text| {
      if column.text != "" {
        LostExactly(column);
      }
    } else {
      LostExactly(column);
      EndsUnlessStuck(column);
      if column.Finishes() {
        forall n: nat ensures !Sticks(column, n) {
          if n > 0 {
            PastTheSecond(column, n);
          }
        }
      } else {
        var i :| column.Following(0) <= i < |column.text| && !IsWhitespace(column.text[i]) && !IsBoundary(column.text, i + 1);
        forall n: nat ensures column.StartAfter(n) != |column.text| {
          if n > 0 {
            StaysBefore(column, n, i);
          }
        }
      }
    }
  }

  lemma ExampleLines(text: string)
    requires text == "-ab"
    ensures LineAt(text, 0, 1).end == 1 && NextStart(text, 1) == 1 && !Stuck(text, 0, 1) && Stuck(text, 1, 1)
  {
    assert IsBoundary(text, 1) && !IsBoundary(text, 2);
    assert Scan(text, 0, 1) == 1 + Scan(text, 1, 0) == 1;
    assert LastBoundary(text, 0, 1) == 1 && Stripped(text, 0, 1) == 1;
  }

  lemma ExampleStarts(column: Column)
    requires column == Column("-ab", 1, 0, None)
    ensures column.HasRoom() && column.StartAfter(0) == 0 && column.Following(0) == 1
  {
    ExampleLines(column.text);
    LostExactly(column);
  }

  lemma ExampleSecond(column: Column)
    requires column == Column("-ab", 1, 0, None)
    ensures column.HasRoom() && column.StartAfter(1) == 1
  {
    ExampleStarts(column);
    StepOf(column, 0);
  }

  lemma ExampleStuck(column: Column)
    requires column == Column("-ab", 1, 0, None)
    ensures column.HasRoom() && 1 < |column.text| && !IsWhitespace(column.text[1])
    ensures Stuck(column.text, 1, column.Room(1))
  {
    ExampleLines(column.text);
  }

  lemma SticksAt(column: Column, n: nat, s: nat)
    requires column.HasRoom() && n > 0 && column.StartAfter(n) == s < |column.text|
    requires Stuck(column.text, s, column.Room(s)) && !IsWhitespace(column.text[s])
    ensures Sticks(column, n) && !column.Ends()
  {
    assert Sticks(column, n);
    EndsUnlessStuck(column);
  }

  /** The constructor's assertion admits this column, whose second line comes again and again. */
  lemma StuckExample(column: Column)
    requires column == Column("-ab", 1, 0, None)
    ensures column.HasRoom() && Sticks(column, 1) && !column.Ends()
  {
    ExampleSecond(column);
    ExampleStuck(column);
    SticksAt(column, 1, 1);
  }

  /** And this one, all of whose text is dropped. */
  lemma LostExample()
    ensures var column := Column("ab", 1, 0, None);
            column.HasRoom() && column.Lost() && column.StartAfter(0) == 2
  {
    assert !IsBoundary("ab", 1);
    LostExactly(Column("ab", 1, 0, None));
  }

  /** A single place of room can be enough, also where whitespace would be stuck in it. */
  lemma OnePlaceExample()
    ensures var column := Column("a b", 5, 4, None);
            column.HasRoom() && column.Ends() && !column.Lost() && Stuck(column.text, 1, column.Room(1))
  {
    var column := Column("a b", 5, 4, None);
    assert IsBoundary("a b", 1) && IsBoundary("a b", 3);
    LostExactly(column);
    FirstMoves(column);
    EndsExactly(column);
  }

  /** Two places are enough: nothing is lost, and the iteration ends. */
  lemma TwoPlacesEnough(column: Column)
    requires column.indent + 2 <= column.width
    requires column.initialIndent.Some? ==> column.initialIndent.value + 2 <= column.width
    ensures column.HasRoom() && column.Ends() && !column.Lost()
    ensures forall n: nat | column.StartAfter(n) < |column.text| :: column.StartAfter(n) < column.StartAfter(n + 1)
  {
    EndsExactly(column);
    forall n: nat | column.StartAfter(n) < |column.text| ensures column.StartAfter(n) < column.StartAfter(n + 1) {
      SelfFollowing(column, column.StartAfter(n));
    }
  }

  // ---------------------------------------------------------------- wrapping

  /**
  Streams the column line by line, for every column on which the iteration ends. Every printed line
  fits the width, a leading newline aside; unless all text is lost, the lines without indents and
  hyphens are the text again, up to whitespace between lines.
   */
  method Wrap(column: Column) returns (output: seq<string>, lines: seq<Line>)
    requires column.HasRoom() && column.Finishes()
    ensures AllPrinted(column, lines, output)
    ensures StartsAre(column, lines)
    ensures column.StartAfter(|lines|) == |column.text|
    ensures column.Lost() ==> output == []
    ensures !column.Lost() ==> Follow(column.text, lines, |column.text|)
    ensures forall i | 0 <= i < |lines| :: lines[i].start <= lines[i].end <= |column.text|
    ensures !column.Lost() ==> Visible(Contents(column.text, lines)) == Visible(column.text)
  {
    output, lines := [], [];
    EndsExactly(column);
    EndsUnlessStuck(column);
    if column.text != "" {
      LostExactly(column);
    }
    var it := new LineIterator(column);
    while it.lineStart < |column.text|
      invariant it.column == column && it.lineStart == column.StartAfter(|lines|)
      invariant it.lineStart < |column.text| ==> it.Measured()
      invariant Wrapped(column, lines, output)
      decreases |column.text| - it.lineStart
    {
      ghost var line := it.CurrentLine();
      MeasuredIsPrinted(column, line);
      var printed := it.Current();
      LineAdded(column, lines, output, line, printed);
      output, lines := output + [printed], lines + [Line(it.lineStart, it.lineEnd, it.addHyphen)];
      it.Next();
    }
    AllWrapped(column, lines, output);
  }

  lemma AllWrapped(column: Column, lines: seq<Line>, output: seq<string>)
    requires column.HasRoom() && Wrapped(column, lines, output) && column.StartAfter(|lines|) == |column.text|
    ensures forall i | 0 <= i < |lines| :: lines[i].start <= lines[i].end <= |column.text|
    ensures !column.Lost() ==> Visible(Contents(column.text, lines)) == Visible(column.text)
  {
    if !column.Lost() {
      NothingVisibleLost(column.text, lines, |column.text|);
      assert column.text[..|column.text|] == column.text;
    }
  }

  /** Line i starts where the iterator is after i steps. */
  ghost predicate StartsAre(column: Column, lines: seq<Line>)
    requires column.HasRoom()
  {
    lines == []
    || (StartsAre(column, lines[..|lines| - 1]) && lines[|lines| - 1].start == column.StartAfter(|lines| - 1) < |column.text|)
  }

  lemma StartAdded(column: Column, lines: seq<Line>, line: Line)
    requires column.HasRoom() && StartsAre(column, lines) && line.start == column.StartAfter(|lines|) < |column.text|
    ensures StartsAre(column, lines + [line])
  {
    assert (lines + [line])[..|lines|] == lines;
  }

  /** What the first lines of a column look like. */
  ghost predicate Wrapped(column: Column, lines: seq<Line>, output: seq<string>)
    requires column.HasRoom()
  {
    && AllPrinted(column, lines, output)
    && StartsAre(column, lines)
    && if column.Lost() then lines == [] else Follow(column.text, lines, column.StartAfter(|lines|))
  }

  lemma LineAdded(column: Column, lines: seq<Line>, output: seq<string>, line: Line, printed: string)
    requires column.HasRoom() && Wrapped(column, lines, output) && !Sticks(column, |lines|)
    requires line.start == column.StartAfter(|lines|) < |column.text| && Printed(column, line, printed)
    ensures Wrapped(column, lines + [line], output + [printed])
    ensures line.start < column.Following(line.start) == column.StartAfter(|lines| + 1)
  {
    AllPrintedStep(column, lines, output, line, printed);
    StartAdded(column, lines, line);
    NotLost(column, |lines|);
    StepMoves(column, |lines|);
    LineFollows(column, lines, line, printed);
  }

  lemma NotLost(column: Column, n: nat)
    requires column.HasRoom() && column.StartAfter(n) < |column.text|
    ensures !column.Lost()
  {
    LostExactly(column);
    if column.StartAfter(0) == |column.text| {
      EndIsLast(column, 0, n);
    }
  }

  lemma PrintedIsMeasured(column: Column, line: Line, printed: string)
    requires column.HasRoom() && Printed(column, line, printed)
    ensures line == LineAt(column.text, line.start, column.Room(line.start))
  {
    assert column.IndentAt(line.start) == IndentOf(column, line.start == 0);
    OnlyLineAt(column.text, line, column.Room(line.start));
  }

  lemma LineFollows(column: Column, lines: seq<Line>, line: Line, printed: string)
    requires column.HasRoom() && line.start < |column.text| && Follow(column.text, lines, line.start)
    requires Printed(column, line, printed)
    ensures Follow(column.text, lines + [line], column.Following(line.start))
  {
    PrintedIsMeasured(column, line, printed);
    NextStartIs(column.text, line.end);
    FollowStep(column.text, lines, line, column.Following(line.start));
  }
}
