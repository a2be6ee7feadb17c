/** What a line of an env file means, told by how it is written. */
module EnvLines {
  import opened EnvFile
  import opened Optional

  /** A value as written: nothing, a text between two equal quotes, or a bare text. */
  datatype Value = Blank | Quoted(quote: char, text: string) | Bare(text: string)

  /** A line: white space, perhaps `export` and more of it, a key, an equals sign between white
      space, a value, and what trails behind it. */
  datatype Line = Line(indent: string, exported: Option<string>, key: string, left: string, right: string, value: Value, trail: string)

  predicate AllSpaces(s: string) {
    forall i :: 0 <= i < |s| ==> IsSpace(s[i])
  }

  predicate NoTerminator(s: string) {
    forall i :: 0 <= i < |s| ==> !IsLineTerminator(s[i])
  }

  function Written(v: Value): string {
    match v
    case Blank => ""
    case Quoted(quote, text) => [quote] + text + [quote]
    case Bare(text) => text
  }

  function Body(l: Line): string {
    l.key + (l.left + ("=" + (l.right + (Written(l.value) + l.trail))))
  }

  function LineText(l: Line): string {
    l.indent + (if l.exported.Some? then "export" + (l.exported.value + Body(l)) else Body(l))
  }

  /** White space and then a hash. */
  predicate IsComment(s: string) {
    |s| > 0 && IsSpace(s[0]) && SkipSpaces(s) != [] && SkipSpaces(s)[0] == '#'
  }

  /** No comment starts inside. */
  ghost predicate NoComment(s: string) {
    forall i :: 0 <= i < |s| ==> !IsComment(s[i..])
  }

  /** Behind a bare value there may be a comment; behind a quoted one only white space. */
  ghost predicate IsWellWritten(l: Line) {
    && AllSpaces(l.indent) && AllSpaces(l.left) && AllSpaces(l.right) && IsKey(l.key)
    && (l.exported.Some? ==> l.exported.value != [] && AllSpaces(l.exported.value))
    && NoTerminator(l.right) && NoTerminator(Written(l.value)) && NoTerminator(l.trail)
    && match l.value
       case Blank => l.trail == []
       case Quoted(quote, _) => (quote == '"' || quote == '\'') && AllSpaces(l.trail)
       case Bare(text) =>
         && |text| > 0 && !IsSpace(text[0]) && !IsSpace(text[|text| - 1]) && NoComment(text)
         && (AllSpaces(l.trail) || IsComment(l.trail)) && !IsQuoted(Trim(text + l.trail))
  }

  function Meaning(v: Value): string {
    match v
    case Blank => ""
    case Quoted(_, text) => text
    case Bare(text) => text
  }

  // ----- white space -----

  lemma {:induction false} SpacesSkipped(s: string, t: string)
    requires AllSpaces(s)
    ensures SkipSpaces(s + t) == SkipSpaces(t)
  {
    if |s| == 0 {
      assert s + t == t;
    } else {
      SpacesSkipped(s[1..], t);
      assert (s + t)[1..] == s[1..] + t;
    }
  }

  lemma {:induction false} SpacesDropped(s: string, t: string)
    requires AllSpaces(t)
    ensures DropSpacesAtEnd(s + t) == DropSpacesAtEnd(s)
  {
    if |t| == 0 {
      assert s + t == s;
    } else {
      SpacesDropped(s, t[..|t| - 1]);
      assert (s + t)[..|s + t| - 1] == s + t[..|t| - 1];
    }
  }

  lemma {:induction false} SkippedStarts(s: string, t: string)
    requires SkipSpaces(s) != []
    ensures SkipSpaces(s + t) == SkipSpaces(s) + t
  {
    if IsSpace(s[0]) {
      SkippedStarts(s[1..], t);
      assert (s + t)[1..] == s[1..] + t;
    }
  }

  lemma TrimmedWithin(s: string, t: string)
    requires |s| > 0 && !IsSpace(s[0]) && !IsSpace(s[|s| - 1]) && AllSpaces(t)
    ensures Trim(s + t) == s
  {
    assert (s + t)[0] == s[0];
    SpacesDropped(s, t);
  }

  lemma {:induction false} DroppedEnds(s: string, t: string)
    requires |t| > 0 && !IsSpace(t[0])
    ensures DropSpacesAtEnd(s + t) == s + DropSpacesAtEnd(t) && DropSpacesAtEnd(t) != []
  {
    if IsSpace(t[|t| - 1]) {
      DroppedEnds(s, t[..|t| - 1]);
      assert (s + t)[..|s + t| - 1] == s + t[..|t| - 1];
    } else {
      assert (s + t)[|s + t| - 1] == t[|t| - 1];
    }
  }

  lemma {:induction false} AllDots(s: string)
    requires NoTerminator(s)
    ensures DotLength(s) == |s|
  {
    if |s| > 0 {
      AllDots(s[1..]);
    }
  }

  lemma {:induction false} SuffixDots(s: string)
    requires NoTerminator(s)
    ensures NoTerminator(SkipSpaces(s))
  {
    if |s| > 0 && IsSpace(s[0]) {
      SuffixDots(s[1..]);
    }
  }

  // ----- values -----

  lemma {:induction false} CommentStripped(text: string, tail: string)
    requires |text| > 0 ==> !IsSpace(text[|text| - 1])
    requires NoComment(text) && (tail == [] || IsComment(tail))
    ensures StripComment(text + tail) == text
  {
    if |text| == 0 {
      assert text + tail == tail;
    } else {
      var s := text + tail;
      assert s[0] == text[0] && s[1..] == text[1..] + tail;
      forall i | 0 <= i < |text[1..]| ensures !IsComment(text[1..][i..]) {
        assert text[1..][i..] == text[i + 1..];
      }
      CommentStripped(text[1..], tail);
      assert text[0..] == text && !IsComment(text);
      if IsSpace(text[0]) {
        LastStays(text);
        SkippedStarts(text, tail);
      }
      assert text == [text[0]] + text[1..];
    }
  }

  /** Trimming leaves the comment a comment. */
  lemma CommentTrimmed(text: string, trail: string) returns (tail: string)
    requires |text| > 0 && !IsSpace(text[0]) && IsComment(trail)
    ensures Trim(text + trail) == text + tail && IsComment(tail)
  {
    hide IsSpace, DropSpacesAtEnd;
    assert (text + trail)[0] == text[0];
    FirstStays(text + trail);
    var spaces := SpacesBefore(trail);
    var hash := trail[|spaces|..];
    HashIsNoSpace();
    DroppedEnds(text + spaces, hash);
    assert text + trail == text + spaces + hash;
    tail := spaces + DropSpacesAtEnd(hash);
    assert text + spaces + DropSpacesAtEnd(hash) == text + tail;
    KeptComment(spaces, hash);
  }

  lemma BareMeans(text: string, trail: string)
    requires |text| > 0 && !IsSpace(text[0]) && !IsSpace(text[|text| - 1]) && NoComment(text)
    requires (AllSpaces(trail) || IsComment(trail)) && !IsQuoted(Trim(text + trail))
    ensures EntryValue(text + trail) == text
  {
    hide IsSpace, StripComment, Trim, IsComment, NoComment, IsQuoted, AllSpaces;
    NothingToTrim(text);
    if IsComment(trail) {
      var tail := CommentTrimmed(text, trail);
      CommentStripped(text, tail);
    } else {
      TrimmedWithin(text, trail);
      CommentStripped(text, []);
      assert text + [] == text;
    }
  }

  lemma HashIsNoSpace()
    ensures !IsSpace('#')
  {
  }

  lemma {:induction false} SpacesBefore(s: string) returns (spaces: string)
    requires SkipSpaces(s) != []
    ensures AllSpaces(spaces) && |spaces| <= |s| && s == spaces + SkipSpaces(s) && s[|spaces|..] == SkipSpaces(s)
    ensures |s| > 0 && IsSpace(s[0]) ==> spaces != []
  {
    if IsSpace(s[0]) {
      var rest := SpacesBefore(s[1..]);
      spaces := [s[0]] + rest;
      assert s == [s[0]] + s[1..];
    } else {
      spaces := [];
    }
  }

  lemma KeptComment(spaces: string, hash: string)
    requires AllSpaces(spaces) && spaces != [] && |hash| > 0 && hash[0] == '#'
    ensures IsComment(spaces + DropSpacesAtEnd(hash))
  {
    HashIsNoSpace();
    DroppedEnds("", hash);
    var kept := DropSpacesAtEnd(hash);
    FirstKept(hash);
    SpacesSkipped(spaces, kept);
    FirstStays(kept);
  }

  lemma {:induction false} FirstKept(s: string)
    requires |s| > 0 && !IsSpace(s[0])
    ensures DropSpacesAtEnd(s) != [] && DropSpacesAtEnd(s)[0] == s[0]
  {
    if IsSpace(s[|s| - 1]) {
      FirstKept(s[..|s| - 1]);
    }
  }

  lemma QuotedMeans(quote: char, text: string, trail: string)
    requires (quote == '"' || quote == '\'') && AllSpaces(trail)
    ensures EntryValue([quote] + text + [quote] + trail) == text
  {
    var q := [quote] + text + [quote];
    assert q[0] == quote && q[|q| - 1] == quote && q[1..|q| - 1] == text;
    TrimmedWithin(q, trail);
  }

  /** A quote that stands alone counts as both quotes. */
  lemma LoneQuoteMeans(quote: char, trail: string)
    requires (quote == '"' || quote == '\'') && AllSpaces(trail)
    ensures EntryValue([quote] + trail) == ""
  {
    TrimmedWithin([quote], trail);
  }

  // ----- line breaks -----

  /** A line feed ends a line, and takes a carriage return in front with it; one elsewhere stays. */
  lemma {:induction false} BreakSplits(s: string, t: string, line: string)
    requires '\n' !in s && (s == [] || s[|s| - 1] != '\r')
    ensures SplitLines(s + "\n" + t, line) == [line + s] + SplitLines(t, [])
    ensures SplitLines(s + "\r\n" + t, line) == [line + s] + SplitLines(t, [])
    ensures SplitLines(s, line) == [line + s]
  {
    var a, b := s + "\n" + t, s + "\r\n" + t;
    if |s| == 0 {
      assert a[1..] == t && b[0] == '\r' && b[1] == '\n' && b[2..] == t && line + s == line;
    } else {
      assert '\n' !in s[1..] && (s[1..] == [] || s[1..][|s[1..]| - 1] == s[|s| - 1]);
      BreakSplits(s[1..], t, line + [s[0]]);
      assert a[0] == s[0] && a[1..] == s[1..] + "\n" + t;
      assert b[0] == s[0] && b[1..] == s[1..] + "\r\n" + t;
      assert |s| > 1 ==> a[1] == s[1] && b[1] == s[1];
      assert |s| == 1 ==> s[0] != '\r';
      assert line + [s[0]] + s[1..] == line + s;
    }
  }

  // ----- the line -----

  lemma BodyMatches(l: Line)
    requires IsWellWritten(l)
    ensures MatchEntry(Body(l)) == Some(Entry(l.key, SkipSpaces(l.right + (Written(l.value) + l.trail))))
  {
    hide SkipSpaces, IsComment, NoComment, IsQuoted, DotLength, KeyLength, IsSpace;
    var rest := l.right + (Written(l.value) + l.trail);
    var t := l.left + ("=" + rest);
    KeyChars(l.key);
    GapIsNoKey(l.left, rest);
    KeyRead(l.key, t);
    assert Body(l)[|l.key|..] == t && Body(l)[..|l.key|] == l.key && Body(l)[0] == l.key[0];
    SpacesSkipped(l.left, "=" + rest);
    EqualsIsNoSpace();
    FirstStays("=" + rest);
    assert ("=" + rest)[1..] == rest;
    SuffixDots(rest);
    AllDots(SkipSpaces(rest));
    NoSpaces();
    var text := SkipSpaces(rest);
    assert text[..|text|] == text && text[|text|..] == [];
  }

  lemma EqualsIsNoSpace()
    ensures !IsSpace('=')
  {
  }

  lemma GapIsNoKey(gap: string, rest: string)
    requires AllSpaces(gap)
    ensures var t := gap + ("=" + rest); !IsKeyChar(t[0])
  {
  }

  /** A line without `export` is not taken for one with it, even if its key is that word. */
  lemma NoExportEntry(l: Line)
    requires IsWellWritten(l) && HasExport(Body(l))
    ensures MatchEntry(SkipSpaces(Body(l)[6..])) == None
  {
    var rest := l.right + (Written(l.value) + l.trail);
    var s := Body(l);
    KeyChars(l.key);
    assert forall i :: 0 <= i < |l.key| ==> s[i] == l.key[i];
    assert s[|l.key|] == (l.left + ("=" + rest))[0];
    GapIsNoKey(l.left, rest);
    assert |l.key| == 6;
    assert s[6..] == l.left + ("=" + rest);
    SpacesSkipped(l.left, "=" + rest);
    EqualsIsNoSpace();
    FirstStays("=" + rest);
  }

  lemma KeyStartsBody(l: Line)
    requires IsWellWritten(l)
    ensures |Body(l)| > 0 && !IsSpace(Body(l)[0]) && Body(l)[0] != '#' && SkipSpaces(Body(l)) == Body(l)
  {
    assert Body(l)[0] == l.key[0];
    FirstStays(Body(l));
  }

  /** What follows the indent. */
  function Stem(l: Line): string {
    if l.exported.Some? then "export" + (l.exported.value + Body(l)) else Body(l)
  }

  lemma StemStarts(l: Line)
    requires IsWellWritten(l)
    ensures |Stem(l)| > 0 && !IsSpace(Stem(l)[0]) && Stem(l)[0] != '#'
  {
    KeyStartsBody(l);
  }

  lemma ExportSeen(gap: string, body: string)
    requires gap != [] && AllSpaces(gap)
    ensures var s := "export" + (gap + body); HasExport(s) && SkipSpaces(s[6..]) == SkipSpaces(body)
  {
    var s := "export" + (gap + body);
    assert s[6] == gap[0] && s[6..] == gap + body;
    SpacesSkipped(gap, body);
  }

  lemma StemMatches(l: Line)
    requires IsWellWritten(l) && SkipSpaces(LineText(l)) == Stem(l)
    ensures MatchLine(LineText(l)) == MatchEntry(Body(l))
  {
    hide IsWellWritten, MatchEntry, SkipSpaces, HasExport, IsSpace;
    SpacesOf(l);
    KeyStartsBody(l);
    BodyMatches(l);
    if l.exported.Some? {
      ExportSeen(l.exported.value, Body(l));
    } else if HasExport(Body(l)) {
      NoExportEntry(l);
    }
  }

  lemma LineMatches(l: Line)
    requires IsWellWritten(l)
    ensures MatchLine(LineText(l)) == MatchEntry(Body(l)) && Trim(LineText(l)) != [] && Trim(LineText(l))[0] != '#'
  {
    hide IsWellWritten, MatchEntry, MatchLine, Body, IsSpace;
    SpacesOf(l);
    StemStarts(l);
    assert LineText(l) == l.indent + Stem(l);
    SpacesSkipped(l.indent, Stem(l));
    FirstStays(Stem(l));
    FirstKept(Stem(l));
    StemMatches(l);
  }

  lemma SpacesOf(l: Line)
    requires IsWellWritten(l)
    ensures AllSpaces(l.indent) && (l.exported.Some? ==> l.exported.value != [] && AllSpaces(l.exported.value))
  {
  }

  /** A well-written line sets its key to the text of its value: quotes of either kind taken off, a
      comment behind a bare value left out, whatever white space and `export` stand around. */
  lemma LineMeans(l: Line)
    requires IsWellWritten(l)
    ensures ParseLine(LineText(l)) == Some(Entry(l.key, Meaning(l.value)))
  {
    hide MatchEntry, MatchLine, EntryValue, Trim, SkipSpaces, IsSpace;
    LineMatches(l);
    BodyMatches(l);
    ValueMeans(l);
  }

  lemma ValueMeans(l: Line)
    requires IsWellWritten(l)
    ensures EntryValue(SkipSpaces(l.right + (Written(l.value) + l.trail))) == Meaning(l.value)
  {
    hide IsSpace, IsQuoted, StripComment;
    var w := Written(l.value) + l.trail;
    SpacesSkipped(l.right, w);
    match l.value
    case Blank =>
      assert w == [];
      NoSpaces();
    case Quoted(quote, text) =>
      QuoteIsNoSpace(quote);
      assert w[0] == quote;
      FirstStays(w);
      QuotedMeans(quote, text, l.trail);
    case Bare(text) =>
      assert w[0] == text[0];
      FirstStays(w);
      BareMeans(text, l.trail);
  }

  lemma QuoteIsNoSpace(quote: char)
    requires quote == '"' || quote == '\''
    ensures !IsSpace(quote)
  {
  }

  /** Blank lines and lines that start with a hash set nothing. */
  lemma CommentLineMeans(indent: string, comment: string)
    requires AllSpaces(indent) && (comment == [] || comment[0] == '#')
    ensures ParseLine(indent + comment) == None
  {
    SpacesSkipped(indent, comment);
    NoSpaces();
    if comment != [] {
      HashIsNoSpace();
      FirstStays(comment);
      FirstKept(comment);
    }
  }

  // ----- nothing else sets an entry -----

  /** White space, or `export` between white space. */
  ghost predicate IsFront(front: string) {
    AllSpaces(front) || exists a, b :: AllSpaces(a) && AllSpaces(b) && b != [] && front == a + "export" + b
  }

  lemma MatchedForm(s: string) returns (gap: string, rest: string)
    requires MatchEntry(s).Some?
    ensures var e := MatchEntry(s).value; IsKey(e.key) && AllSpaces(gap) && s == e.key + (gap + ("=" + rest))
  {
    hide SkipSpaces, DotLength, IsSpace;
    var n := KeyLength(s);
    gap := SpacesBefore(s[n..]);
    var after := SkipSpaces(s[n..]);
    rest := after[1..];
    assert after == "=" + rest;
    assert s == s[..n] + s[n..];
  }

  lemma ExportForm(s: string) returns (gap: string)
    requires HasExport(s) && SkipSpaces(s[6..]) != []
    ensures gap != [] && AllSpaces(gap) && s == "export" + (gap + SkipSpaces(s[6..]))
  {
    gap := SpacesBefore(s[6..]);
    assert s[..6] == "export";
    assert s == s[..6] + s[6..];
  }

  /** A line that sets an entry has a key, white space and an equals sign, behind white space and
      perhaps `export`. */
  lemma ParsedForm(line: string) returns (front: string, gap: string, rest: string)
    requires ParseLine(line).Some?
    ensures var key := ParseLine(line).value.key;
      IsKey(key) && IsFront(front) && AllSpaces(gap) && line == front + (key + (gap + ("=" + rest)))
  {
    hide SkipSpaces, DotLength, IsSpace, EntryValue, Trim, KeyLength, MatchEntry, IsKey;
    SomethingMatches(line);
    var indent := SpacesBefore(line);
    var s := SkipSpaces(line);
    if HasExport(s) && MatchEntry(SkipSpaces(s[6..])).Some? {
      EmptyMatchesNothing();
      var b := ExportForm(s);
      gap, rest := MatchedForm(SkipSpaces(s[6..]));
      front := indent + "export" + b;
      assert IsFront(front);
      assert line == indent + ("export" + (b + SkipSpaces(s[6..])));
    } else {
      gap, rest := MatchedForm(s);
      front := indent;
    }
  }

  lemma EmptyMatchesNothing()
    ensures MatchEntry([]) == None
  {
  }

  lemma SomethingMatches(line: string)
    requires ParseLine(line).Some?
    ensures MatchLine(line).Some? && SkipSpaces(line) != [] && ParseLine(line).value.key == MatchLine(line).value.key
  {
    hide MatchEntry, EntryValue;
    EmptyMatchesNothing();
  }

  // ----- what another reader makes of an escaped value -----

  function HexValue(c: char): Option<nat> {
    if '0' <= c <= '9' then Some(c as int - '0' as int)
    else if 'a' <= c <= 'f' then Some(c as int - 'a' as int + 10)
    else if 'A' <= c <= 'F' then Some(c as int - 'A' as int + 10)
    else None
  }

  /** `\u` with a code below 256: more does not occur in what `JSON.stringify` escapes. */
  function CodeOf(s: string): Option<char>
    requires |s| >= 6
  {
    var high, low := HexValue(s[4]), HexValue(s[5]);
    if s[2] == '0' && s[3] == '0' && high.Some? && low.Some? then Some((16 * high.value + low.value) as char) else None
  }

  function Escape(c: char): Option<char> {
    if c == '"' || c == '\\' || c == '/' then Some(c)
    else if c == 'b' then Some(8 as char)
    else if c == 't' then Some('\t')
    else if c == 'n' then Some('\n')
    else if c == 'f' then Some(12 as char)
    else if c == 'r' then Some('\r')
    else None
  }

  function Before(c: char, rest: Option<string>): Option<string> {
    if rest.Some? then Some([c] + rest.value) else None
  }

  /** The inside of a JSON string, section 7 of RFC 8259, read back. */
  function JsonRead(s: string): Option<string> {
    if |s| == 0 then Some([])
    else if s[0] != '\\' then (if s[0] == '"' || s[0] < ' ' then None else Before(s[0], JsonRead(s[1..])))
    else if |s| >= 2 && Escape(s[1]).Some? then Before(Escape(s[1]).value, JsonRead(s[2..]))
    else if |s| >= 6 && s[1] == 'u' && CodeOf(s).Some? then Before(CodeOf(s).value, JsonRead(s[6..]))
    else None
  }

  lemma ShortReads(c: char, t: string)
    requires |JsonChar(c)| == 2
    ensures JsonRead(JsonChar(c) + t) == Before(c, JsonRead(t))
  {
    var r := JsonChar(c);
    var s := r + t;
    assert s[0] == r[0] == '\\' && s[1] == r[1] && Escape(r[1]) == Some(c);
    assert s[2..] == t;
  }

  lemma CodeReads(c: char, t: string)
    requires |JsonChar(c)| > 2
    ensures JsonRead(JsonChar(c) + t) == Before(c, JsonRead(t))
  {
    var r := JsonChar(c);
    var s := r + t;
    DigitReads(c as int / 16);
    DigitReads(c as int % 16);
    assert r == ['\\', 'u', '0', '0', HexDigit(c as int / 16), HexDigit(c as int % 16)];
    assert s[0] == '\\' && s[1] == 'u' && s[2] == '0' && s[3] == '0' && s[4] == r[4] && s[5] == r[5];
    assert CodeOf(s) == Some(c);
    assert s[6..] == t;
  }

  lemma CharReads(c: char, t: string)
    ensures JsonRead(JsonChar(c) + t) == Before(c, JsonRead(t))
  {
    hide HexDigit;
    if |JsonChar(c)| == 1 {
      assert ([c] + t)[1..] == t;
    } else if |JsonChar(c)| == 2 {
      ShortReads(c, t);
    } else {
      CodeReads(c, t);
    }
  }

  lemma DigitReads(n: int)
    requires 0 <= n < 16
    ensures HexValue(HexDigit(n)) == Some(n)
  {
  }

  /** Escaping loses nothing: a JSON reader gets the value back, which is what the env file's own
      parser does not do. */
  lemma {:induction false} JsonReadsBack(value: string)
    ensures JsonRead(JsonText(value)) == Some(value)
  {
    if |value| > 0 {
      CharReads(value[0], JsonText(value[1..]));
      JsonReadsBack(value[1..]);
      assert value == [value[0]] + value[1..];
    }
  }
}
