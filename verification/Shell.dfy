/** Shell quoting: `shellQuote`, read back by sections 2.2.2, 2.2.3 and 2.3 of the POSIX Shell
Command Language. */
module Shell {
  import opened Optional

  datatype Mode = Unquoted | InSingle | InDouble

  /** A word with what follows it; or a character that starts an expansion; or the end of the
      text inside quotes. */
  datatype Reading = Word(text: string, rest: string) | Expands | Unterminated

  datatype Token = WordToken(text: string) | OperatorToken(text: string)

  predicate IsBlank(c: char) {
    c == ' ' || c == '\t'
  }

  predicate IsOperator(c: char) {
    c == '&' || c == '|' || c == ';' || c == '<' || c == '>' || c == '(' || c == ')' || c == '\n'
  }

  /** Unquoted characters that may make the word mean something other than itself. */
  predicate MayExpand(c: char) {
    c == '$' || c == '`' || c == '*' || c == '?' || c == '[' || c == '~' || c == '#'
  }

  predicate EndsWord(s: string) {
    |s| == 0 || IsBlank(s[0]) || IsOperator(s[0])
  }

  /** Reads on from the middle of a word of which `acc` has been read. */
  function Read(s: string, mode: Mode, acc: string): (r: Reading)
    ensures r.Word? ==> |r.rest| <= |s| && (mode != Unquoted || !EndsWord(s) ==> |r.rest| < |s|)
    decreases |s|
  {
    match mode
    case Unquoted =>
      if EndsWord(s) then Word(acc, s)
      else if s[0] == '\'' then Read(s[1..], InSingle, acc)
      else if s[0] == '"' then Read(s[1..], InDouble, acc)
      else if s[0] == '\\' then
        if |s| == 1 then Unterminated
        else Read(s[2..], Unquoted, if s[1] == '\n' then acc else acc + [s[1]])
      else if MayExpand(s[0]) then Expands
      else Read(s[1..], Unquoted, acc + [s[0]])
    case InSingle =>
      if |s| == 0 then Unterminated
      else if s[0] == '\'' then Read(s[1..], Unquoted, acc)
      else Read(s[1..], InSingle, acc + [s[0]])
    case InDouble =>
      if |s| == 0 then Unterminated
      else if s[0] == '"' then Read(s[1..], Unquoted, acc)
      else if s[0] == '$' || s[0] == '`' then Expands
      else if s[0] == '\\' && |s| > 1 && EscapableInDouble(s[1])
      then Read(s[2..], InDouble, if s[1] == '\n' then acc else acc + [s[1]])
      else Read(s[1..], InDouble, acc + [s[0]])
  }

  predicate EscapableInDouble(c: char) {
    c == '$' || c == '`' || c == '"' || c == '\\' || c == '\n'
  }

  function OperatorLength(s: string): nat
    requires |s| > 0
  {
    if |s| > 1 && ((s[0] == '&' && s[1] == '&') || (s[0] == '|' && s[1] == '|') || (s[0] == '>' && s[1] == '>') || (s[0] == '<' && s[1] == '<'))
    then 2 else 1
  }

  /** The tokens of a script; `None` if a word expands or a quote is open. */
  function Tokens(s: string): Option<seq<Token>>
    decreases |s|
  {
    if |s| == 0 then Some([])
    else if IsBlank(s[0]) then Tokens(s[1..])
    else if IsOperator(s[0]) then
      var n := OperatorLength(s);
      Prepend(OperatorToken(s[..n]), Tokens(s[n..]))
    else
      match Read(s, Unquoted, [])
      case Word(text, rest) => Prepend(WordToken(text), Tokens(rest))
      case _ => None
  }

  function Prepend(t: Token, rest: Option<seq<Token>>): Option<seq<Token>> {
    if rest.Some? then Some([t] + rest.value) else None
  }

  // ----- shellQuote -----

  function EscapeQuotes(value: string): string {
    if |value| == 0 then []
    else (if value[0] == '\'' then "'\"'\"'" else [value[0]]) + EscapeQuotes(value[1..])
  }

  function ShellQuote(value: string): string {
    "'" + EscapeQuotes(value) + "'"
  }

  /** One escaped quote, met inside single quotes. */
  lemma EscapedQuote(t: string, acc: string)
    ensures Read("'\"'\"'" + t, InSingle, acc) == Read(t, InSingle, acc + "'")
  {
    var s := "'\"'\"'" + t;
    assert s[1..] == "\"'\"'" + t;
    assert s[1..][1..] == "'\"'" + t;
    assert s[1..][1..][1..] == "\"'" + t;
    assert s[1..][1..][1..][1..] == "'" + t;
    assert s[1..][1..][1..][1..][1..] == t;
    assert Read(s, InSingle, acc) == Read(s[1..], Unquoted, acc);
    assert Read(s[1..], Unquoted, acc) == Read(s[1..][1..], InDouble, acc);
    assert Read(s[1..][1..], InDouble, acc) == Read(s[1..][1..][1..], InDouble, acc + "'");
    assert Read(s[1..][1..][1..], InDouble, acc + "'") == Read(s[1..][1..][1..][1..], Unquoted, acc + "'");
  }

  lemma {:induction false} InsideQuotes(value: string, t: string, acc: string)
    ensures Read(EscapeQuotes(value) + "'" + t, InSingle, acc) == Read(t, Unquoted, acc + value)
  {
    var s := EscapeQuotes(value) + "'" + t;
    if |value| == 0 {
      assert s == "'" + t && s[1..] == t && acc + value == acc;
    } else {
      var rest := EscapeQuotes(value[1..]) + "'" + t;
      InsideQuotes(value[1..], t, acc + [value[0]]);
      assert acc + [value[0]] + value[1..] == acc + value;
      if value[0] == '\'' {
        assert s == "'\"'\"'" + rest;
        EscapedQuote(rest, acc);
      } else {
        assert s == [value[0]] + rest && s[1..] == rest;
      }
    }
  }

  /** In any unquoted position, whatever precedes in the word and whatever follows, the quoted
      text contributes exactly itself. */
  lemma QuoteReadsBack(value: string, t: string, acc: string)
    ensures Read(ShellQuote(value) + t, Unquoted, acc) == Read(t, Unquoted, acc + value)
  {
    var s := ShellQuote(value) + t;
    assert s[1..] == EscapeQuotes(value) + "'" + t;
    InsideQuotes(value, t, acc);
  }

  // ----- scripts -----

  datatype Piece = Plain(text: string) | Quoted(value: string) | Operator(text: string)

  predicate IsPlain(text: string) {
    |text| > 0 && forall i :: 0 <= i < |text| ==>
      !IsBlank(text[i]) && !IsOperator(text[i]) && !MayExpand(text[i]) && text[i] != '\'' && text[i] != '"' && text[i] != '\\'
  }

  predicate IsPiece(p: Piece) {
    match p
    case Plain(text) => IsPlain(text)
    case Quoted(_) => true
    case Operator(text) => |text| > 0 && IsOperator(text[0]) && OperatorLength(text + " ") == |text|
  }

  function Text(p: Piece): string {
    match p
    case Plain(text) => text
    case Quoted(value) => ShellQuote(value)
    case Operator(text) => text
  }

  /** The pieces with a space between them. */
  function Render(pieces: seq<Piece>): string {
    if |pieces| == 0 then []
    else if |pieces| == 1 then Text(pieces[0])
    else Text(pieces[0]) + " " + Render(pieces[1..])
  }

  function Meaning(p: Piece): Token {
    match p
    case Plain(text) => WordToken(text)
    case Quoted(value) => WordToken(value)
    case Operator(text) => OperatorToken(text)
  }

  function Meanings(pieces: seq<Piece>): seq<Token> {
    seq(|pieces|, i requires 0 <= i < |pieces| => Meaning(pieces[i]))
  }

  lemma {:induction false} PlainReads(text: string, t: string, acc: string)
    requires (|text| > 0 ==> IsPlain(text)) && EndsWord(t)
    ensures Read(text + t, Unquoted, acc) == Word(acc + text, t)
  {
    if |text| == 0 {
      assert text + t == t && acc + text == acc;
    } else {
      PlainReads(text[1..], t, acc + [text[0]]);
      assert (text + t)[1..] == text[1..] + t;
      assert acc + [text[0]] + text[1..] == acc + text;
    }
  }

  lemma QuoteIsWord(value: string, t: string)
    requires EndsWord(t)
    ensures Read(ShellQuote(value) + t, Unquoted, []) == Word(value, t)
    ensures (ShellQuote(value) + t)[0] == '\''
  {
    QuoteReadsBack(value, t, []);
    assert [] + value == value;
  }

  lemma FirstToken(p: Piece, t: string)
    requires IsPiece(p) && (t == "" || t[0] == ' ')
    ensures Tokens(Text(p) + t) == Prepend(Meaning(p), Tokens(t))
  {
    hide Read, EscapeQuotes;
    var s := Text(p) + t;
    match p
    case Plain(text) =>
      PlainReads(text, t, []);
      assert [] + text == text;
    case Quoted(value) =>
      QuoteIsWord(value, t);
    case Operator(text) =>
      assert s[0] == text[0] && OperatorLength(s) == OperatorLength(text + " ") == |text|;
      assert s[..|text|] == text && s[|text|..] == t;
  }

  /** A script built from words, operators and quoted values means just those, whatever
      characters the values hold. */
  lemma {:induction false} ScriptMeans(pieces: seq<Piece>)
    requires forall i :: 0 <= i < |pieces| ==> IsPiece(pieces[i])
    ensures Tokens(Render(pieces)) == Some(Meanings(pieces))
  {
    hide Read, EscapeQuotes, IsPiece, ShellQuote, OperatorLength;
    if |pieces| == 0 {
    } else if |pieces| == 1 {
      FirstToken(pieces[0], "");
      assert Text(pieces[0]) + "" == Text(pieces[0]);
      assert Meanings(pieces) == [Meaning(pieces[0])] + [];
    } else {
      var t := " " + Render(pieces[1..]);
      ScriptMeans(pieces[1..]);
      FirstToken(pieces[0], t);
      assert Text(pieces[0]) + t == Render(pieces);
      assert t[1..] == Render(pieces[1..]);
      assert Meanings(pieces) == [Meaning(pieces[0])] + Meanings(pieces[1..]);
    }
  }

  function RunInShell(script: string): seq<Piece> {
    [Plain("sh"), Plain("-c"), Quoted(script)]
  }

  lemma RunInShellPieces(script: string)
    ensures forall p :: p in RunInShell(script) ==> IsPiece(p)
    ensures Meanings(RunInShell(script)) == [WordToken("sh"), WordToken("-c"), WordToken(script)]
  {
    assert IsPlain("sh") && IsPlain("-c");
  }

  /** `sh -c` with the quoted script: the outer shell hands the inner one the script unchanged,
      and the inner one reads its values back.  Values may be quoted scripts in turn. */
  lemma NestedScriptMeans(pieces: seq<Piece>)
    requires forall i :: 0 <= i < |pieces| ==> IsPiece(pieces[i])
    ensures var outer := Tokens(Render(RunInShell(Render(pieces))));
      && outer == Some([WordToken("sh"), WordToken("-c"), WordToken(Render(pieces))])
      && Tokens(outer.value[2].text) == Some(Meanings(pieces))
  {
    hide Tokens, Render, IsPiece, RunInShell, Meanings;
    RunInShellPieces(Render(pieces));
    ScriptMeans(RunInShell(Render(pieces)));
    ScriptMeans(pieces);
  }
}
