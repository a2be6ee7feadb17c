/** `parseEnvFile` and `formatEnvEntries`, character by character. */
module EnvFile {
  import opened Optional

  datatype Entry = Entry(key: string, value: string)

  // ----- character classes of the ECMAScript regular expressions -----

  predicate IsLineTerminator(c: char) {
    c == '\n' || c == '\r' || c == '\U{2028}' || c == '\U{2029}'
  }

  /** `\s`, and what `trim` removes. */
  predicate IsSpace(c: char) {
    || ('\t' <= c <= '\r') || c == ' ' || c == '\U{00A0}' || c == '\U{1680}' || ('\U{2000}' <= c <= '\U{200A}')
    || IsLineTerminator(c) || c == '\U{202F}' || c == '\U{205F}' || c == '\U{3000}' || c == '\U{FEFF}'
  }

  predicate IsKeyStart(c: char) {
    ('A' <= c <= 'Z') || ('a' <= c <= 'z') || c == '_'
  }

  predicate IsKeyChar(c: char) {
    IsKeyStart(c) || ('0' <= c <= '9')
  }

  predicate IsKey(s: string) {
    |s| > 0 && IsKeyStart(s[0]) && forall i :: 0 <= i < |s| ==> IsKeyChar(s[i])
  }

  // ----- scanning -----

  function SkipSpaces(s: string): string {
    if |s| > 0 && IsSpace(s[0]) then SkipSpaces(s[1..]) else s
  }

  function DropSpacesAtEnd(s: string): string {
    if |s| > 0 && IsSpace(s[|s| - 1]) then DropSpacesAtEnd(s[..|s| - 1]) else s
  }

  function Trim(s: string): string {
    DropSpacesAtEnd(SkipSpaces(s))
  }

  /** The length of the longest run of key characters in front. */
  function KeyLength(s: string): (n: nat)
    ensures n <= |s| && forall i :: 0 <= i < n ==> IsKeyChar(s[i])
  {
    if |s| > 0 && IsKeyChar(s[0]) then 1 + KeyLength(s[1..]) else 0
  }

  /** What `.*` matches: everything before a line terminator. */
  function DotLength(s: string): (n: nat)
    ensures n <= |s| && (forall i :: 0 <= i < n ==> !IsLineTerminator(s[i])) && (n < |s| ==> IsLineTerminator(s[n]))
  {
    if |s| > 0 && !IsLineTerminator(s[0]) then 1 + DotLength(s[1..]) else 0
  }

  /** The regular expression from the key on: key, equals sign, value, and nothing but white
      space behind the value. */
  function MatchEntry(s: string): Option<Entry> {
    var n := KeyLength(s);
    if n == 0 || !IsKeyStart(s[0]) then None
    else
      var after := SkipSpaces(s[n..]);
      if |after| == 0 || after[0] != '=' then None
      else
        var text := SkipSpaces(after[1..]);
        var m := DotLength(text);
        if SkipSpaces(text[m..]) == [] then Some(Entry(s[..n], text[..m])) else None
  }

  predicate HasExport(s: string) {
    |s| > 6 && s[0] == 'e' && s[1] == 'x' && s[2] == 'p' && s[3] == 'o' && s[4] == 'r' && s[5] == 't' && IsSpace(s[6])
  }

  /** With `export` in front if that matches, without it otherwise. */
  function MatchLine(rawLine: string): Option<Entry> {
    var s := SkipSpaces(rawLine);
    if HasExport(s) && MatchEntry(SkipSpaces(s[6..])).Some? then MatchEntry(SkipSpaces(s[6..])) else MatchEntry(s)
  }

  /** `replace(/\s+#.*$/, "")` */
  function StripComment(s: string): string {
    if |s| == 0 then []
    else if IsSpace(s[0]) && SkipSpaces(s) != [] && SkipSpaces(s)[0] == '#' then []
    else [s[0]] + StripComment(s[1..])
  }

  predicate IsQuoted(s: string) {
    |s| > 0 && (s[0] == '"' || s[0] == '\'') && s[|s| - 1] == s[0]
  }

  function EntryValue(rawValue: string): string {
    var value := Trim(rawValue);
    if |value| == 0 then []
    else if IsQuoted(value) then (if |value| == 1 then [] else value[1..|value| - 1])
    else Trim(StripComment(value))
  }

  function ParseLine(rawLine: string): Option<Entry> {
    var line := Trim(rawLine);
    if |line| == 0 || line[0] == '#' then None
    else
      match MatchLine(rawLine)
      case None => None
      case Some(e) => Some(Entry(e.key, EntryValue(e.value)))
  }

  /** `split(/\r?\n/)`, with the line read so far. */
  function SplitLines(s: string, line: string): seq<string>
    decreases |s|
  {
    if |s| == 0 then [line]
    else if s[0] == '\n' then [line] + SplitLines(s[1..], [])
    else if s[0] == '\r' && |s| > 1 && s[1] == '\n' then [line] + SplitLines(s[2..], [])
    else SplitLines(s[1..], line + [s[0]])
  }

  /** Assigning a string to `__proto__` of an object sets nothing. */
  predicate IsProto(key: string) {
    |key| == 9 && key == "__proto__"
  }

  function Assigned(entries: map<string, string>, e: Entry): map<string, string> {
    if IsProto(e.key) then entries else entries[e.key := e.value]
  }

  function EntriesOf(lines: seq<string>): map<string, string> {
    if |lines| == 0 then map[]
    else
      var before := EntriesOf(lines[..|lines| - 1]);
      match ParseLine(lines[|lines| - 1])
      case None => before
      case Some(e) => Assigned(before, e)
  }

  /** Assigning to an object: a key keeps its place, a new one comes last. */
  function PutEntry(entries: seq<Entry>, e: Entry): seq<Entry> {
    if |entries| == 0 then [e]
    else if entries[0].key == e.key then [e] + entries[1..]
    else [entries[0]] + PutEntry(entries[1..], e)
  }

  function PutAll(entries: seq<Entry>, more: seq<Entry>): seq<Entry> {
    if |more| == 0 then entries
    else PutEntry(PutAll(entries, more[..|more| - 1]), more[|more| - 1])
  }

  /** The parsed entries in the order of the object's keys. */
  function OrderedEntries(lines: seq<string>): seq<Entry> {
    if |lines| == 0 then []
    else
      var before := OrderedEntries(lines[..|lines| - 1]);
      match ParseLine(lines[|lines| - 1])
      case None => before
      case Some(e) => if IsProto(e.key) then before else PutEntry(before, e)
  }

  function EntryMap(entries: seq<Entry>): map<string, string> {
    if |entries| == 0 then map[]
    else
      var e := entries[|entries| - 1];
      EntryMap(entries[..|entries| - 1])[e.key := e.value]
  }

  predicate DistinctKeys(entries: seq<Entry>) {
    forall i, j :: 0 <= i < j < |entries| ==> entries[i].key != entries[j].key
  }

  ghost predicate AllKeys(entries: seq<Entry>) {
    forall e :: e in entries ==> IsKey(e.key)
  }

  /** Line `i` sets this entry and no later line sets its key. */
  predicate LastToSet(lines: seq<string>, i: nat, e: Entry) {
    && i < |lines| && ParseLine(lines[i]) == Some(e) && !IsProto(e.key)
    && forall j :: i < j < |lines| && ParseLine(lines[j]).Some? ==> ParseLine(lines[j]).value.key != e.key
  }

  ghost predicate IsSet(lines: seq<string>, e: Entry) {
    exists i: nat :: LastToSet(lines, i, e)
  }

  /** The keys are identifiers, each there once, and its value is that of the last line to set it. */
  method ParseEnvFile(contents: string) returns (entries: seq<Entry>)
    ensures DistinctKeys(entries) && AllKeys(entries)
    ensures forall e :: e in entries <==> IsSet(SplitLines(contents, []), e)
    ensures entries == OrderedEntries(SplitLines(contents, []))
  {
    hide SplitLines, ParseLine, PutEntry, IsSet, DistinctKeys, AllKeys, IsProto;
    entries := [];
    var lines := SplitLines(contents, []);
    for i := 0 to |lines|
      invariant entries == OrderedEntries(lines[..i])
    {
      assert lines[..i + 1][..i] == lines[..i];
      var parsed := ParseLine(lines[i]);
      if parsed.Some? && !IsProto(parsed.value.key) {
        entries := PutEntry(entries, parsed.value);
      }
    }
    assert lines[..|lines|] == lines;
    OrderedEntriesAre(lines);
  }

  lemma ParsedKey(line: string)
    ensures ParseLine(line).Some? ==> IsKey(ParseLine(line).value.key)
  {
    hide SkipSpaces, DropSpacesAtEnd, DotLength, StripComment;
  }

  lemma {:induction false} PutMembers(entries: seq<Entry>, e: Entry)
    requires DistinctKeys(entries)
    ensures DistinctKeys(PutEntry(entries, e))
    ensures forall x :: x in PutEntry(entries, e) <==> x == e || (x in entries && x.key != e.key)
  {
    if |entries| > 0 {
      var rest := entries[1..];
      assert entries == [entries[0]] + rest;
      if entries[0].key == e.key {
        forall x | x in rest ensures x.key != e.key {
        }
      } else {
        PutMembers(rest, e);
        var put := PutEntry(rest, e);
        forall i | 0 <= i < |put| ensures put[i].key != entries[0].key {
          assert put[i] in put;
          if put[i] != e {
            assert put[i] in rest;
          }
        }
      }
    }
  }

  lemma {:induction false} OrderedEntriesAre(lines: seq<string>)
    ensures DistinctKeys(OrderedEntries(lines)) && AllKeys(OrderedEntries(lines))
    ensures forall e :: e in OrderedEntries(lines) <==> IsSet(lines, e)
  {
    hide ParseLine;
    if |lines| > 0 {
      var front, last := lines[..|lines| - 1], lines[|lines| - 1];
      OrderedEntriesAre(front);
      ParsedKey(last);
      var before := OrderedEntries(front);
      if ParseLine(last).Some? {
        PutMembers(before, ParseLine(last).value);
      }
      forall e ensures e in OrderedEntries(lines) <==> IsSet(lines, e) {
        LastToSetGrows(lines, e);
      }
    }
  }

  lemma LastToSetGrows(lines: seq<string>, e: Entry)
    requires |lines| > 0
    ensures var last := ParseLine(lines[|lines| - 1]);
      IsSet(lines, e) <==>
        if last.Some? && last.value.key == e.key && !IsProto(e.key) then last.value == e else IsSet(lines[..|lines| - 1], e)
  {
    hide ParseLine, IsProto;
    var front, n: nat := lines[..|lines| - 1], |lines| - 1;
    if IsSet(lines, e) {
      var i: nat :| LastToSet(lines, i, e);
      assert i < n ==> LastToSet(front, i, e);
    }
    if IsSet(front, e) {
      var i: nat :| LastToSet(front, i, e);
      assert ParseLine(lines[i]) == Some(e);
      assert (ParseLine(lines[n]).Some? ==> ParseLine(lines[n]).value.key != e.key) ==> LastToSet(lines, i, e);
    }
    if ParseLine(lines[n]) == Some(e) && !IsProto(e.key) {
      assert LastToSet(lines, n, e);
    }
  }

  /** Key order aside, this is the map that assignments lead to. */
  lemma {:induction false} MapHasMembers(entries: seq<Entry>)
    requires DistinctKeys(entries)
    ensures forall k, v :: (k in EntryMap(entries) && EntryMap(entries)[k] == v) <==> Entry(k, v) in entries
  {
    if |entries| > 0 {
      var front, last := entries[..|entries| - 1], entries[|entries| - 1];
      MapHasMembers(front);
      assert entries == front + [last];
      forall k, v ensures (k in EntryMap(entries) && EntryMap(entries)[k] == v) <==> Entry(k, v) in entries {
        if Entry(k, v) in front {
          var i :| 0 <= i < |front| && front[i] == Entry(k, v);
          assert entries[i].key != last.key;
        }
      }
    }
  }

  function KeysOf(entries: seq<Entry>): (keys: seq<string>)
    ensures |keys| == |entries| && forall i :: 0 <= i < |entries| ==> keys[i] == entries[i].key
  {
    seq(|entries|, i requires 0 <= i < |entries| => entries[i].key)
  }

  lemma KeysOfOneMore(e: Entry, rest: seq<Entry>)
    ensures KeysOf([e] + rest) == [e.key] + KeysOf(rest)
  {
  }

  /** A key that is there keeps its place, a new one comes last. */
  lemma {:induction false} PutKeepsPlaces(entries: seq<Entry>, e: Entry)
    ensures KeysOf(PutEntry(entries, e)) == KeysOf(entries) + if e.key in KeysOf(entries) then [] else [e.key]
  {
    hide KeysOf;
    if |entries| == 0 {
      KeysOfOneMore(e, []);
    } else {
      var first, rest := entries[0], entries[1..];
      assert entries == [first] + rest;
      KeysOfOneMore(first, rest);
      if first.key == e.key {
        KeysOfOneMore(e, rest);
      } else {
        PutKeepsPlaces(rest, e);
        KeysOfOneMore(first, PutEntry(rest, e));
      }
    }
  }

  lemma PutKeepsKeys(entries: seq<Entry>, e: Entry)
    requires DistinctKeys(entries)
    ensures AllKeys(entries) && IsKey(e.key) ==> AllKeys(PutEntry(entries, e))
  {
    hide PutEntry, IsKey, DistinctKeys;
    PutMembers(entries, e);
  }

  lemma PutIsUpdate(entries: seq<Entry>, e: Entry)
    requires DistinctKeys(entries)
    ensures DistinctKeys(PutEntry(entries, e)) && EntryMap(PutEntry(entries, e)) == EntryMap(entries)[e.key := e.value]
    ensures AllKeys(entries) && IsKey(e.key) ==> AllKeys(PutEntry(entries, e))
  {
    PutMembers(entries, e);
    MapHasMembers(entries);
    MapHasMembers(PutEntry(entries, e));
    hide EntryMap, PutEntry, IsKey, DistinctKeys, AllKeys;
    PutKeepsKeys(entries, e);
    var now, updated := EntryMap(PutEntry(entries, e)), EntryMap(entries)[e.key := e.value];
    forall k | k in now ensures k in updated && updated[k] == now[k] {
      assert Entry(k, now[k]) in PutEntry(entries, e);
    }
    forall k | k in updated ensures k in now {
      assert Entry(k, updated[k]) in PutEntry(entries, e);
    }
  }

  lemma {:induction false} PutAllIsUnion(entries: seq<Entry>, more: seq<Entry>)
    requires DistinctKeys(entries) && AllKeys(entries) && AllKeys(more)
    ensures DistinctKeys(PutAll(entries, more)) && AllKeys(PutAll(entries, more))
    ensures EntryMap(PutAll(entries, more)) == EntryMap(entries) + EntryMap(more)
  {
    hide PutEntry, IsKey, DistinctKeys;
    if |more| > 0 {
      var front, last := more[..|more| - 1], more[|more| - 1];
      PutAllIsUnion(entries, front);
      PutIsUpdate(PutAll(entries, front), last);
    }
  }

  lemma {:induction false} OrderedIsMap(lines: seq<string>)
    ensures EntryMap(OrderedEntries(lines)) == EntriesOf(lines)
  {
    hide ParseLine, PutEntry;
    if |lines| > 0 {
      var front := lines[..|lines| - 1];
      OrderedIsMap(front);
      OrderedEntriesAre(front);
      var parsed := ParseLine(lines[|lines| - 1]);
      if parsed.Some? {
        PutIsUpdate(OrderedEntries(front), parsed.value);
      }
    }
  }

  // ----- formatting -----

  function HexDigit(n: int): char
    requires 0 <= n < 16
  {
    if n < 10 then ('0' as int + n) as char else ('a' as int + n - 10) as char
  }

  predicate IsEscaped(c: char) {
    c == '"' || c == '\\' || c < ' '
  }

  /** A character inside `JSON.stringify` of a string. */
  function JsonChar(c: char): (r: string)
    ensures |r| >= 1 && (|r| == 1 <==> !IsEscaped(c)) && (!IsEscaped(c) ==> r == [c])
    ensures forall i :: 0 <= i < |r| ==> r[i] >= ' ' && (IsLineTerminator(r[i]) ==> r == [c])
  {
    if c == '"' then ['\\', '"']
    else if c == '\\' then ['\\', '\\']
    else if c as int == 8 then ['\\', 'b']
    else if c == '\t' then ['\\', 't']
    else if c == '\n' then ['\\', 'n']
    else if c as int == 12 then ['\\', 'f']
    else if c == '\r' then ['\\', 'r']
    else if c < ' ' then ['\\', 'u', '0', '0', HexDigit(c as int / 16), HexDigit(c as int % 16)]
    else [c]
  }

  function JsonText(value: string): string {
    if |value| == 0 then [] else JsonChar(value[0]) + JsonText(value[1..])
  }

  function FormatEntry(e: Entry): string {
    e.key + "=" + ("\"" + JsonText(e.value) + "\"")
  }

  function FormatLines(entries: seq<Entry>): seq<string> {
    seq(|entries|, i requires 0 <= i < |entries| => FormatEntry(entries[i]))
  }

  function JoinLines(lines: seq<string>): string {
    if |lines| == 0 then []
    else if |lines| == 1 then lines[0]
    else lines[0] + "\n" + JoinLines(lines[1..])
  }

  const HEADER := ["# DealDesk environment variables", "# Generated by DealDesk worktree repair"]

  function FormatEnvEntries(entries: seq<Entry>): string {
    JoinLines(HEADER + FormatLines(entries) + [""])
  }

  // ----- one line, back and forth -----

  predicate HasSeparator(s: string) {
    exists i :: 0 <= i < |s| && (s[i] == '\U{2028}' || s[i] == '\U{2029}')
  }

  predicate HasEscaped(s: string) {
    exists i :: 0 <= i < |s| && IsEscaped(s[i])
  }

  lemma {:induction false} JsonTextLength(value: string)
    ensures |JsonText(value)| >= |value|
    ensures if HasEscaped(value) then |JsonText(value)| > |value| else JsonText(value) == value
    ensures forall i :: 0 <= i < |JsonText(value)| ==> JsonText(value)[i] >= ' '
  {
    if |value| > 0 {
      JsonTextLength(value[1..]);
      if HasEscaped(value) {
        var i :| 0 <= i < |value| && IsEscaped(value[i]);
        assert i > 0 ==> value[1..][i - 1] == value[i];
      } else {
        assert !IsEscaped(value[0]);
        assert value == [value[0]] + value[1..];
      }
    }
  }

  lemma SeparatorSplits(a: string, b: string)
    ensures HasSeparator(a + b) <==> HasSeparator(a) || HasSeparator(b)
  {
    var s := a + b;
    if HasSeparator(a) {
      var i :| 0 <= i < |a| && (a[i] == '\U{2028}' || a[i] == '\U{2029}');
      assert s[i] == a[i];
    }
    if HasSeparator(b) {
      var i :| 0 <= i < |b| && (b[i] == '\U{2028}' || b[i] == '\U{2029}');
      assert s[|a| + i] == b[i];
    }
    if HasSeparator(s) {
      var i :| 0 <= i < |s| && (s[i] == '\U{2028}' || s[i] == '\U{2029}');
      assert i < |a| ==> s[i] == a[i];
      assert i >= |a| ==> s[i] == b[i - |a|];
    }
  }

  lemma {:induction false} JsonTextSeparators(value: string)
    ensures HasSeparator(JsonText(value)) <==> HasSeparator(value)
  {
    if |value| > 0 {
      JsonTextSeparators(value[1..]);
      SeparatorSplits(JsonChar(value[0]), JsonText(value[1..]));
      SeparatorSplits([value[0]], value[1..]);
      assert value == [value[0]] + value[1..];
      OneCharSeparator(value[0]);
    }
  }

  lemma OneCharSeparator(c: char)
    ensures HasSeparator(JsonChar(c)) <==> HasSeparator([c])
  {
    var r := JsonChar(c);
    if HasSeparator(r) {
      var i :| 0 <= i < |r| && (r[i] == '\U{2028}' || r[i] == '\U{2029}');
      assert r == [c];
    }
    if HasSeparator([c]) {
      assert !IsEscaped(c);
    }
  }

  lemma NothingToTrim(s: string)
    requires |s| > 0 && !IsSpace(s[0]) && !IsSpace(s[|s| - 1])
    ensures SkipSpaces(s) == s && Trim(s) == s
  {
  }

  lemma {:induction false} LastStays(s: string)
    requires |s| > 0 && !IsSpace(s[|s| - 1])
    ensures SkipSpaces(s) != []
  {
    if IsSpace(s[0]) {
      LastStays(s[1..]);
    }
  }

  lemma {:induction false} KeyRead(key: string, t: string)
    requires (forall i :: 0 <= i < |key| ==> IsKeyChar(key[i])) && |t| > 0 && !IsKeyChar(t[0])
    ensures KeyLength(key + t) == |key|
  {
    if |key| == 0 {
      assert key + t == t;
    } else {
      KeyRead(key[1..], t);
      assert (key + t)[1..] == key[1..] + t;
    }
  }

  function QuotedText(value: string): string {
    "\"" + JsonText(value) + "\""
  }

  lemma QuotedSeparators(value: string)
    ensures HasSeparator(QuotedText(value)) <==> HasSeparator(value)
  {
    hide JsonText;
    JsonTextSeparators(value);
    SeparatorSplits("\"" + JsonText(value), "\"");
    SeparatorSplits("\"", JsonText(value));
    hide HasSeparator;
    NoneInQuote();
  }

  lemma NoneInQuote()
    ensures !HasSeparator("\"")
  {
  }

  lemma QuotedDots(q: string)
    requires |q| > 0 && !IsSpace(q[|q| - 1]) && forall i :: 0 <= i < |q| ==> q[i] >= ' '
    ensures if HasSeparator(q) then SkipSpaces(q[DotLength(q)..]) != [] else DotLength(q) == |q|
  {
    hide SkipSpaces, IsSpace;
    var m := DotLength(q);
    if HasSeparator(q) {
      var i :| 0 <= i < |q| && (q[i] == '\U{2028}' || q[i] == '\U{2029}');
      assert IsLineTerminator(q[i]);
      assert m <= i && q[m..][|q| - m - 1] == q[|q| - 1];
      LastStays(q[m..]);
    }
  }

  lemma QuotedMatches(value: string)
    ensures var q := QuotedText(value);
      && |q| >= 2 && SkipSpaces(q) == q && Trim(q) == q && IsQuoted(q) && q[1..|q| - 1] == JsonText(value)
      && (if HasSeparator(value) then SkipSpaces(q[DotLength(q)..]) != [] else DotLength(q) == |q|)
  {
    hide JsonText, HasSeparator, DotLength, SkipSpaces, Trim;
    var q := QuotedText(value);
    NothingToTrim(q);
    JsonTextLength(value);
    QuotedSeparators(value);
    forall i | 0 <= i < |q| ensures q[i] >= ' ' {
      assert 0 < i < |q| - 1 ==> q[i] == JsonText(value)[i - 1];
    }
    QuotedDots(q);
  }

  /** No key makes its line look like an `export`. */
  lemma NotAnExport(key: string, t: string)
    requires (forall i :: 0 <= i < |key| ==> IsKeyChar(key[i])) && |t| > 0 && t[0] == '='
    ensures !HasExport(key + t)
  {
    var s := key + t;
    assert s[|key|] == '=';
    assert forall i :: 0 <= i < |key| ==> s[i] == key[i];
    assert |s| > 6 && |key| > 6 ==> IsKeyChar(s[6]);
  }

  lemma FirstStays(s: string)
    requires |s| > 0 && !IsSpace(s[0])
    ensures SkipSpaces(s) == s
  {
  }

  lemma EntryMatches(key: string, q: string)
    requires IsKey(key) && |q| > 0 && SkipSpaces(q) == q
    ensures MatchEntry(key + ("=" + q)) ==
      if SkipSpaces(q[DotLength(q)..]) == [] then Some(Entry(key, q[..DotLength(q)])) else None
  {
    hide SkipSpaces, DotLength, KeyLength;
    var t := "=" + q;
    var line := key + t;
    KeyRead(key, t);
    assert line[0] == key[0] && line[|key|..] == t && line[..|key|] == key;
    FirstStays(t);
    assert t[1..] == q;
  }

  lemma LineUntrimmed(key: string, t: string)
    requires IsKey(key) && |t| > 0 && !IsSpace(t[|t| - 1])
    ensures var line := key + t; |line| > 0 && SkipSpaces(line) == line && Trim(line) == line && line[0] != '#'
  {
    var line := key + t;
    assert line[0] == key[0] && line[|line| - 1] == t[|t| - 1];
    NothingToTrim(line);
  }

  /** A formatted line parses to its key and the escaped text of its value, unless the value has
      a line or paragraph separator, which `.*` does not match: then the line is skipped. */
  lemma FormattedLineParses(e: Entry)
    requires IsKey(e.key)
    ensures ParseLine(FormatEntry(e)) == if HasSeparator(e.value) then None else Some(Entry(e.key, JsonText(e.value)))
  {
    hide SkipSpaces, DropSpacesAtEnd, Trim, IsQuoted, DotLength, JsonText, HasSeparator, HasExport, StripComment, MatchEntry, IsKey, IsSpace;
    var q := QuotedText(e.value);
    var t := "=" + q;
    assert FormatEntry(e) == e.key + t by { SameText(e); }
    QuotedMatches(e.value);
    LastQuote(e.value);
    LineUntrimmed(e.key, t);
    KeyChars(e.key);
    NotAnExport(e.key, t);
    EntryMatches(e.key, q);
    assert q[..|q|] == q && q[|q|..] == [];
    NoSpaces();
  }

  lemma SameText(e: Entry)
    ensures FormatEntry(e) == e.key + ("=" + QuotedText(e.value))
  {
    assert "\"" + JsonText(e.value) + "\"" == "\"" + (JsonText(e.value) + "\"") == ("\"" + JsonText(e.value) + "\"");
  }

  lemma LastQuote(value: string)
    ensures var t := "=" + QuotedText(value); t[0] == '=' && !IsSpace(t[|t| - 1])
  {
  }

  lemma KeyChars(key: string)
    requires IsKey(key)
    ensures forall i :: 0 <= i < |key| ==> IsKeyChar(key[i])
  {
  }

  lemma NoSpaces()
    ensures SkipSpaces([]) == []
  {
  }

  // ----- the whole file -----

  predicate OneLine(s: string) {
    forall i :: 0 <= i < |s| ==> s[i] != '\n' && s[i] != '\r'
  }

  lemma {:induction false} LineSplits(s: string, t: string, line: string)
    requires OneLine(s)
    ensures SplitLines(s + "\n" + t, line) == [line + s] + SplitLines(t, [])
    ensures SplitLines(s, line) == [line + s]
  {
    var whole := s + "\n" + t;
    if |s| == 0 {
      assert whole[0] == '\n' && whole[1..] == t && line + s == line;
    } else {
      LineSplits(s[1..], t, line + [s[0]]);
      assert whole[0] == s[0] && whole[1..] == s[1..] + "\n" + t;
      assert line + [s[0]] + s[1..] == line + s;
    }
  }

  lemma {:induction false} JoinedLinesSplit(lines: seq<string>)
    requires |lines| > 0 && forall i :: 0 <= i < |lines| ==> OneLine(lines[i])
    ensures SplitLines(JoinLines(lines), []) == lines
  {
    assert [] + lines[0] == lines[0];
    if |lines| == 1 {
      LineSplits(lines[0], "", []);
    } else {
      JoinedLinesSplit(lines[1..]);
      LineSplits(lines[0], JoinLines(lines[1..]), []);
      assert lines == [lines[0]] + lines[1..];
    }
  }

  lemma EntryOnOneLine(e: Entry)
    requires IsKey(e.key)
    ensures OneLine(FormatEntry(e))
  {
    JsonTextLength(e.value);
    var line, text := FormatEntry(e), JsonText(e.value);
    forall i | 0 <= i < |line| ensures line[i] != '\n' && line[i] != '\r' {
      if i < |e.key| {
        assert line[i] == e.key[i] && IsKeyChar(e.key[i]);
      } else if |e.key| + 2 <= i < |line| - 1 {
        assert line[i] == text[i - |e.key| - 2];
      }
    }
  }

  lemma HeaderLines()
    ensures |HEADER| == 2 && OneLine(HEADER[0]) && OneLine(HEADER[1])
    ensures ParseLine(HEADER[0]) == None && ParseLine(HEADER[1]) == None && ParseLine("") == None
  {
    NothingToTrim(HEADER[0]);
    NothingToTrim(HEADER[1]);
  }

  /** What formatting and parsing makes of the entries. */
  function Reparsed(entries: seq<Entry>): map<string, string> {
    if |entries| == 0 then map[]
    else
      var before, e := Reparsed(entries[..|entries| - 1]), entries[|entries| - 1];
      if HasSeparator(e.value) then before else Assigned(before, Entry(e.key, JsonText(e.value)))
  }

  lemma HeaderParses()
    ensures EntriesOf(HEADER) == map[]
  {
    hide ParseLine;
    HeaderLines();
    var one := HEADER[..1];
    assert one[..0] == [] && one[0] == HEADER[0];
    assert EntriesOf(one) == map[];
  }

  lemma {:induction false} EntryLinesParse(entries: seq<Entry>)
    requires forall e :: e in entries ==> IsKey(e.key)
    ensures EntriesOf(HEADER + FormatLines(entries)) == Reparsed(entries)
  {
    hide ParseLine, FormatEntry, IsKey, HasSeparator, JsonText;
    var lines := HEADER + FormatLines(entries);
    if |entries| == 0 {
      assert lines == HEADER;
      HeaderParses();
    } else {
      var front, e := entries[..|entries| - 1], entries[|entries| - 1];
      EntryLinesParse(front);
      FormattedLineParses(e);
      assert lines[..|lines| - 1] == HEADER + FormatLines(front);
    }
  }

  /** Formatting and parsing back escapes each value once and loses the entries with a separator. */
  lemma FormatThenParse(entries: seq<Entry>)
    requires forall e :: e in entries ==> IsKey(e.key)
    ensures EntriesOf(SplitLines(FormatEnvEntries(entries), [])) == Reparsed(entries)
  {
    hide ParseLine, FormatEntry, JoinLines, SplitLines, IsKey;
    HeaderLines();
    var lines := HEADER + FormatLines(entries) + [""];
    forall i | 0 <= i < |lines| ensures OneLine(lines[i]) {
      if 2 <= i < |lines| - 1 {
        EntryOnOneLine(entries[i - 2]);
        assert lines[i] == FormatEntry(entries[i - 2]);
      }
    }
    JoinedLinesSplit(lines);
    EntryLinesParse(entries);
    assert lines[..|lines| - 1] == HEADER + FormatLines(entries);
  }

  // ----- the round trip -----

  /** The value comes back as it was. */
  predicate IsPlain(e: Entry) {
    !HasEscaped(e.value) && !HasSeparator(e.value) && !IsProto(e.key)
  }

  predicate HasKey(entries: seq<Entry>, k: string) {
    exists i :: 0 <= i < |entries| && entries[i].key == k
  }

  lemma HasKeyGrows(entries: seq<Entry>, k: string)
    requires |entries| > 0
    ensures HasKey(entries, k) <==> HasKey(entries[..|entries| - 1], k) || entries[|entries| - 1].key == k
  {
    var front := entries[..|entries| - 1];
    if HasKey(front, k) {
      var i :| 0 <= i < |front| && front[i].key == k;
      assert entries[i].key == k;
    }
    if HasKey(entries, k) && entries[|entries| - 1].key != k {
      var i :| 0 <= i < |entries| && entries[i].key == k;
      assert front[i].key == k;
    }
  }

  lemma {:induction false} KeysOfMaps(entries: seq<Entry>)
    ensures Reparsed(entries).Keys <= EntryMap(entries).Keys
    ensures forall k :: k in EntryMap(entries) <==> HasKey(entries, k)
  {
    hide HasSeparator, JsonText, IsProto;
    if |entries| > 0 {
      KeysOfMaps(entries[..|entries| - 1]);
      forall k ensures k in EntryMap(entries) <==> HasKey(entries, k) {
        HasKeyGrows(entries, k);
      }
    }
  }

  predicate Returns(entries: seq<Entry>, e: Entry) {
    e.key in Reparsed(entries) && Reparsed(entries)[e.key] == e.value
  }

  lemma {:induction false} EntryReparsed(entries: seq<Entry>, i: nat)
    requires DistinctKeys(entries) && i < |entries|
    ensures entries[i].key in EntryMap(entries) && EntryMap(entries)[entries[i].key] == entries[i].value
    ensures entries[i].key in Reparsed(entries) <==> !HasSeparator(entries[i].value) && !IsProto(entries[i].key)
    ensures entries[i].key in Reparsed(entries) ==> Reparsed(entries)[entries[i].key] == JsonText(entries[i].value)
    ensures Returns(entries, entries[i]) <==> IsPlain(entries[i])
  {
    hide HasSeparator, HasEscaped, IsProto, JsonText;
    var n := |entries| - 1;
    if i < n {
      EntryReparsed(entries[..n], i);
      assert entries[i].key != entries[n].key;
    } else {
      NewKey(entries);
    }
    JsonTextLength(entries[i].value);
  }

  lemma NewKey(entries: seq<Entry>)
    requires DistinctKeys(entries) && |entries| > 0
    ensures entries[|entries| - 1].key !in Reparsed(entries[..|entries| - 1])
  {
    var front := entries[..|entries| - 1];
    hide EntryMap, Reparsed;
    KeysOfMaps(front);
    forall k | 0 <= k < |front| ensures front[k].key != entries[|entries| - 1].key {
    }
  }

  /** `parseEnvFile` undoes `formatEnvEntries` exactly when no value has a quote, a backslash, a
      control character or a line or paragraph separator, and no key is `__proto__`. */
  lemma RoundTripIffPlain(entries: seq<Entry>)
    requires DistinctKeys(entries) && forall e :: e in entries ==> IsKey(e.key)
    ensures EntriesOf(SplitLines(FormatEnvEntries(entries), [])) == EntryMap(entries) <==> forall e :: e in entries ==> IsPlain(e)
  {
    hide EntriesOf, SplitLines, FormatEnvEntries, IsPlain, IsKey, Reparsed, EntryMap;
    FormatThenParse(entries);
    KeysOfMaps(entries);
    forall i | 0 <= i < |entries|
      ensures EntryMap(entries)[entries[i].key] == entries[i].value
      ensures Returns(entries, entries[i]) <==> IsPlain(entries[i])
    {
      EntryReparsed(entries, i);
    }
    if Reparsed(entries) == EntryMap(entries) {
      forall e | e in entries ensures IsPlain(e) {
        var i :| 0 <= i < |entries| && entries[i] == e;
      }
    }
    if forall e :: e in entries ==> IsPlain(e) {
      forall k | k in EntryMap(entries) ensures k in Reparsed(entries) && Reparsed(entries)[k] == EntryMap(entries)[k] {
        var i :| 0 <= i < |entries| && entries[i].key == k;
        assert entries[i] in entries;
      }
      assert Reparsed(entries) == EntryMap(entries);
    }
  }
}
