/** `createCommandManagedRuntimeClient`: files moved through a shell.  The client builds scripts
out of quoted values; the sandbox reads each script as section 2 of the POSIX Shell Command
Language says and runs the few utilities the scripts use. */
module SandboxFiles {
  import opened Shell
  import B = Base64
  import opened Optional

  type Bytes = seq<B.Byte>

  const CHUNK_SIZE := 32 * 1024

  // ----- running a script -----

  /** A simple command with its redirections. */
  datatype Simple = Simple(args: seq<string>, input: Option<string>, output: Option<string>, appends: bool)

  const NO_COMMAND := Simple([], None, None, false)

  /** An and-list of simple commands. */
  function Commands(tokens: seq<Token>, current: Simple): Option<seq<Simple>> {
    if |tokens| == 0 then Some([current])
    else
      match tokens[0]
      case WordToken(text) => Commands(tokens[1..], current.(args := current.args + [text]))
      case OperatorToken(text) =>
        if text == "&&" then
          var rest := Commands(tokens[1..], NO_COMMAND);
          if rest.Some? then Some([current] + rest.value) else None
        else if |tokens| > 1 && tokens[1].WordToken? && IsRedirection(text)
        then Commands(tokens[2..], Redirected(current, text, tokens[1].text))
        else None
  }

  predicate IsRedirection(text: string) {
    text == "<" || text == ">" || text == ">>"
  }

  function Redirected(c: Simple, operator: string, file: string): Simple {
    if operator == "<" then c.(input := Some(file)) else c.(output := Some(file), appends := operator == ">>")
  }

  datatype Utility = Mkdir | Rm | Colon | Printf | Base64Utility | Unknown

  function UtilityOf(name: string): Utility {
    if name == "mkdir" then Mkdir
    else if name == "rm" then Rm
    else if name == ":" then Colon
    else if name == "printf" then Printf
    else if name == "base64" then Base64Utility
    else Unknown
  }

  function Ascii(s: string): Bytes
    requires B.IsAscii(s)
  {
    seq(|s|, i requires 0 <= i < |s| => s[i] as int)
  }

  function Chars(bytes: Bytes): string {
    seq(|bytes|, i requires 0 <= i < |bytes| => bytes[i] as char)
  }

  /** What a command writes to standard output; `None` if it fails.  `width` is where `base64`
      breaks its lines. */
  function Output(files: map<string, Bytes>, c: Simple, width: nat): Option<Bytes>
    requires width > 0
  {
    if |c.args| == 0 then None
    else
      match UtilityOf(c.args[0])
      case Mkdir => if |c.args| == 3 && c.args[1] == "-p" then Some([]) else None
      case Rm => if |c.args| == 3 && c.args[1] == "-f" then Some([]) else None
      case Colon => Some([])
      case Printf => if |c.args| == 3 && c.args[1] == "%s" && B.IsAscii(c.args[2]) then Some(Ascii(c.args[2])) else None
      case Base64Utility =>
        if c.input == None || c.input.value !in files then None
        else if |c.args| == 2 && c.args[1] == "-d" then
          B.Decode(Chars(files[c.input.value]))
        else if |c.args| == 1 then
          B.EncodedText(files[c.input.value]);
          B.WrappedAscii(B.Encode(files[c.input.value]), width);
          Some(Ascii(B.Wrap(B.Encode(files[c.input.value]), width)))
        else None
      case Unknown => None
  }

  datatype Result = Failed | Done(files: map<string, Bytes>, stdout: Bytes)

  function RunSimple(files: map<string, Bytes>, c: Simple, width: nat): Result
    requires width > 0
  {
    var out := Output(files, c, width);
    if out == None then Failed
    else
      var kept := if UtilityOf(c.args[0]) == Rm then files - {c.args[2]} else files;
      if c.output == None then Done(kept, out.value)
      else Done(kept[c.output.value := (if c.appends && c.output.value in kept then kept[c.output.value] else []) + out.value], [])
  }

  /** `&&`: the next command runs if this one succeeded. */
  function RunAll(files: map<string, Bytes>, commands: seq<Simple>, width: nat): Result
    requires width > 0
    decreases |commands|
  {
    if |commands| == 0 then Done(files, [])
    else
      match RunSimple(files, commands[0], width)
      case Failed => Failed
      case Done(now, stdout) =>
        match RunAll(now, commands[1..], width)
        case Failed => Failed
        case Done(end, more) => Done(end, stdout + more)
  }

  function RunScript(files: map<string, Bytes>, script: string, width: nat): Result
    requires width > 0
  {
    match Tokens(script)
    case None => Failed
    case Some(tokens) =>
      match Commands(tokens, NO_COMMAND)
      case None => Failed
      case Some(commands) => RunAll(files, commands, width)
  }

  // ----- scripts as the client writes them -----

  datatype Line = Line(words: seq<Piece>, input: Option<string>, output: Option<string>, appends: bool)

  function Redirections(l: Line): seq<Piece> {
    (if l.input.Some? then [Operator("<"), Quoted(l.input.value)] else []) +
    (if l.output.Some? then [Operator(if l.appends then ">>" else ">"), Quoted(l.output.value)] else [])
  }

  function Pieces(lines: seq<Line>): seq<Piece> {
    if |lines| == 0 then []
    else if |lines| == 1 then lines[0].words + Redirections(lines[0])
    else lines[0].words + Redirections(lines[0]) + [Operator("&&")] + Pieces(lines[1..])
  }

  function Script(lines: seq<Line>): string {
    Render(Pieces(lines))
  }

  predicate IsWord(p: Piece) {
    !p.Operator? && IsPiece(p)
  }

  predicate IsLine(l: Line) {
    (forall p :: p in l.words ==> IsWord(p)) && (l.output == None ==> !l.appends)
  }

  function Args(words: seq<Piece>): seq<string>
    requires forall p :: p in words ==> IsWord(p)
  {
    seq(|words|, i requires 0 <= i < |words| => Meaning(words[i]).text)
  }

  function CommandOf(l: Line): Simple
    requires IsLine(l)
  {
    Simple(Args(l.words), l.input, l.output, l.appends)
  }

  function CommandsOf(lines: seq<Line>): seq<Simple>
    requires forall l :: l in lines ==> IsLine(l)
  {
    seq(|lines|, i requires 0 <= i < |lines| => CommandOf(lines[i]))
  }

  lemma OperatorPieces()
    ensures IsPiece(Operator("<")) && IsPiece(Operator(">")) && IsPiece(Operator(">>")) && IsPiece(Operator("&&"))
    ensures IsRedirection("<") && IsRedirection(">") && IsRedirection(">>")
    ensures "<" != "&&" && ">" != "&&" && ">>" != "&&" && ">" != "<" && ">>" != "<" && ">" != ">>"
  {
    assert ("<" + " ")[1] == ' ' && (">" + " ")[1] == ' ';
    assert ">>"[0] == '>' && "&&"[0] == '&' && (">>" + " ")[1] == '>' && ("&&" + " ")[1] == '&';
    assert |">>"| == 2 && |">"| == 1;
  }

  lemma {:induction false} WordsParse(words: seq<Piece>, t: seq<Token>, c: Simple)
    requires forall p :: p in words ==> IsWord(p)
    ensures Commands(Meanings(words) + t, c) == Commands(t, c.(args := c.args + Args(words)))
  {
    if |words| == 0 {
      assert Meanings(words) + t == t && c.args + Args(words) == c.args;
    } else {
      var s := Meanings(words) + t;
      assert words[0] in words && forall p :: p in words[1..] ==> p in words;
      assert s[0] == Meaning(words[0]) && s[1..] == Meanings(words[1..]) + t;
      var next := c.(args := c.args + [s[0].text]);
      WordsParse(words[1..], t, next);
      assert next.args + Args(words[1..]) == c.args + Args(words);
    }
  }

  lemma InputParses(file: string, t: seq<Token>, c: Simple)
    ensures Commands(Meanings([Operator("<"), Quoted(file)]) + t, c) == Commands(t, c.(input := Some(file)))
  {
    OperatorPieces();
    var s := Meanings([Operator("<"), Quoted(file)]) + t;
    assert s[0] == OperatorToken("<") && s[1] == WordToken(file) && s[2..] == t;
  }

  lemma OutputParses(file: string, appends: bool, t: seq<Token>, c: Simple)
    ensures Commands(Meanings([Operator(if appends then ">>" else ">"), Quoted(file)]) + t, c)
            == Commands(t, c.(output := Some(file), appends := appends))
  {
    OperatorPieces();
    var s := Meanings([Operator(if appends then ">>" else ">"), Quoted(file)]) + t;
    assert s[0] == OperatorToken(if appends then ">>" else ">") && s[1] == WordToken(file) && s[2..] == t;
  }

  lemma MeaningsConcat(a: seq<Piece>, b: seq<Piece>)
    ensures Meanings(a + b) == Meanings(a) + Meanings(b)
  {
  }

  lemma LineParses(l: Line, t: seq<Token>)
    requires IsLine(l)
    ensures Commands(Meanings(l.words + Redirections(l)) + t, NO_COMMAND) == Commands(t, CommandOf(l))
  {
    hide Commands, Meanings, Args;
    var inputs := if l.input.Some? then [Operator("<"), Quoted(l.input.value)] else [];
    var outputs := if l.output.Some? then [Operator(if l.appends then ">>" else ">"), Quoted(l.output.value)] else [];
    MeaningsConcat(l.words, inputs + outputs);
    MeaningsConcat(inputs, outputs);
    NoMeanings();
    var c := NO_COMMAND.(args := [] + Args(l.words));
    assert [] + Args(l.words) == Args(l.words);
    assert Meanings(l.words + Redirections(l)) + t == Meanings(l.words) + (Meanings(inputs) + (Meanings(outputs) + t));
    WordsParse(l.words, Meanings(inputs) + (Meanings(outputs) + t), NO_COMMAND);
    if l.input.Some? {
      InputParses(l.input.value, Meanings(outputs) + t, c);
    } else {
      assert Meanings(inputs) + (Meanings(outputs) + t) == Meanings(outputs) + t;
    }
    var d := c.(input := l.input);
    if l.output.Some? {
      OutputParses(l.output.value, l.appends, t, d);
    } else {
      assert Meanings(outputs) + t == t;
    }
  }

  lemma NoMeanings()
    ensures Meanings([]) == []
  {
  }

  lemma {:induction false} LinesParse(lines: seq<Line>)
    requires |lines| > 0 && forall l :: l in lines ==> IsLine(l)
    ensures Commands(Meanings(Pieces(lines)), NO_COMMAND) == Some(CommandsOf(lines))
  {
    hide Meanings, IsLine, CommandOf, Redirections;
    assert lines[0] in lines;
    if |lines| == 1 {
      LineParses(lines[0], []);
      assert Meanings(Pieces(lines)) + [] == Meanings(Pieces(lines));
      assert CommandsOf(lines) == [CommandOf(lines[0])];
    } else {
      var first, rest := lines[0].words + Redirections(lines[0]), Pieces(lines[1..]);
      AndParses(rest);
      LinesParse(lines[1..]);
      MeaningsConcat(first, [Operator("&&")] + rest);
      assert Pieces(lines) == first + ([Operator("&&")] + rest);
      LineParses(lines[0], Meanings([Operator("&&")] + rest));
      assert CommandsOf(lines) == [CommandOf(lines[0])] + CommandsOf(lines[1..]);
      AndCommands(rest, CommandOf(lines[0]));
    }
  }

  lemma AndParses(rest: seq<Piece>)
    ensures Meanings([Operator("&&")] + rest) == [OperatorToken("&&")] + Meanings(rest)
  {
  }

  lemma AndCommands(rest: seq<Piece>, c: Simple)
    ensures Commands(Meanings([Operator("&&")] + rest), c) ==
      match Commands(Meanings(rest), NO_COMMAND)
      case None => None
      case Some(more) => Some([c] + more)
  {
    AndParses(rest);
    var s := [OperatorToken("&&")] + Meanings(rest);
    assert s[1..] == Meanings(rest);
  }

  lemma {:induction false} LinesArePieces(lines: seq<Line>)
    requires forall l :: l in lines ==> IsLine(l)
    ensures forall p :: p in Pieces(lines) ==> IsPiece(p)
  {
    hide IsPiece;
    OperatorPieces();
    QuotedPieces();
    if |lines| > 0 {
      assert lines[0] in lines;
      LinesArePieces(lines[1..]);
    }
  }

  lemma QuotedPieces()
    ensures forall value :: IsPiece(Quoted(value))
  {
  }

  /** The sandbox runs exactly the commands that the client wrote, whatever the quoted values. */
  lemma ScriptRuns(files: map<string, Bytes>, lines: seq<Line>, width: nat)
    requires |lines| > 0 && width > 0 && forall l :: l in lines ==> IsLine(l)
    ensures RunScript(files, Script(lines), width) == RunAll(files, CommandsOf(lines), width)
  {
    hide Tokens, Render, Commands, IsLine, IsPiece, RunAll, Pieces;
    LinesArePieces(lines);
    ScriptMeans(Pieces(lines));
    LinesParse(lines);
  }

  // ----- the client's scripts -----

  function PrepareUpload(remoteDir: string, temp: string): seq<Line> {
    [Line([Plain("mkdir"), Plain("-p"), Quoted(remoteDir)], None, None, false),
     Line([Plain("rm"), Plain("-f"), Quoted(temp)], None, None, false),
     Line([Plain(":")], None, Some(temp), false)]
  }

  function AppendChunk(chunk: string, temp: string): seq<Line> {
    [Line([Plain("printf"), Quoted("%s"), Quoted(chunk)], None, Some(temp), true)]
  }

  function FinishUpload(temp: string, remotePath: string): seq<Line> {
    [Line([Plain("base64"), Plain("-d")], Some(temp), Some(remotePath), false),
     Line([Plain("rm"), Plain("-f"), Quoted(temp)], None, None, false)]
  }

  function ReadBack(remotePath: string): seq<Line> {
    [Line([Plain("base64")], Some(remotePath), None, false)]
  }

  lemma PlainNames()
    ensures IsWord(Plain("mkdir")) && IsWord(Plain("rm")) && IsWord(Plain(":")) && IsWord(Plain("printf")) && IsWord(Plain("base64"))
    ensures IsWord(Plain("-p")) && IsWord(Plain("-f")) && IsWord(Plain("-d"))
  {
    hide IsWord;
    LongNames();
    ShortNames();
  }

  lemma LongNames()
    ensures IsWord(Plain("mkdir")) && IsWord(Plain("printf")) && IsWord(Plain("base64"))
  {
  }

  lemma ShortNames()
    ensures IsWord(Plain("rm")) && IsWord(Plain(":")) && IsWord(Plain("-p")) && IsWord(Plain("-f")) && IsWord(Plain("-d"))
  {
  }

  lemma UtilityNames()
    ensures UtilityOf("mkdir") == Mkdir && UtilityOf("rm") == Rm && UtilityOf(":") == Colon
    ensures UtilityOf("printf") == Printf && UtilityOf("base64") == Base64Utility
  {
    assert "printf"[0] != "base64"[0] && |"mkdir"| == 5 && |"rm"| == 2 && |":"| == 1 && |"printf"| == 6 && |"base64"| == 6;
  }

  lemma LinesOk(remoteDir: string, temp: string, chunk: string, remotePath: string)
    ensures forall l :: l in PrepareUpload(remoteDir, temp) ==> IsLine(l)
    ensures forall l :: l in AppendChunk(chunk, temp) ==> IsLine(l)
    ensures forall l :: l in FinishUpload(temp, remotePath) ==> IsLine(l)
    ensures forall l :: l in ReadBack(remotePath) ==> IsLine(l)
  {
    PlainNames();
  }

  lemma PrepareRuns(files: map<string, Bytes>, remoteDir: string, temp: string, width: nat)
    requires width > 0
    ensures RunScript(files, Script(PrepareUpload(remoteDir, temp)), width) == Done(files[temp := []], [])
  {
    hide IsPiece, IsPlain, RunScript, Script;
    var lines := PrepareUpload(remoteDir, temp);
    LinesOk(remoteDir, temp, "", "");
    UtilityNames();
    ScriptRuns(files, lines, width);
    var cs := CommandsOf(lines);
    assert cs[0] == Simple(["mkdir", "-p", remoteDir], None, None, false);
    assert cs[1] == Simple(["rm", "-f", temp], None, None, false);
    assert cs[2] == Simple([":"], None, Some(temp), false);
    assert (files - {temp})[temp := []] == files[temp := []];
    RunsOn(files, cs, width, files);
    RunsOn(files, cs[1..], width, files - {temp});
    RunsOn(files - {temp}, cs[1..][1..], width, files[temp := []]);
  }

  lemma RunsOn(files: map<string, Bytes>, cs: seq<Simple>, width: nat, now: map<string, Bytes>)
    requires |cs| > 0 && width > 0 && RunSimple(files, cs[0], width) == Done(now, [])
    ensures RunAll(files, cs, width) == if |cs| == 1 then Done(now, []) else RunAll(now, cs[1..], width)
  {
    hide RunSimple;
    if |cs| == 1 {
      assert cs[1..] == [];
    }
    assert forall more: Bytes :: [] + more == more;
  }

  lemma AppendRuns(files: map<string, Bytes>, chunk: string, temp: string, width: nat)
    requires width > 0 && B.IsAscii(chunk) && temp in files
    ensures RunScript(files, Script(AppendChunk(chunk, temp)), width) == Done(files[temp := files[temp] + Ascii(chunk)], [])
  {
    hide IsPiece, IsPlain, RunScript, Script, Ascii;
    var lines := AppendChunk(chunk, temp);
    LinesOk("", temp, chunk, "");
    UtilityNames();
    ScriptRuns(files, lines, width);
    var cs := CommandsOf(lines);
    assert cs[0] == Simple(["printf", "%s", chunk], None, Some(temp), true);
    assert cs[1..] == [];
  }

  lemma FinishRuns(files: map<string, Bytes>, temp: string, remotePath: string, bytes: Bytes, width: nat)
    requires width > 0 && temp in files && temp != remotePath && B.Decode(Chars(files[temp])) == Some(bytes)
    ensures RunScript(files, Script(FinishUpload(temp, remotePath)), width) == Done(files[remotePath := bytes] - {temp}, [])
  {
    hide IsPiece, IsPlain, IsLine, RunScript, Script, Chars, RunAll;
    var lines := FinishUpload(temp, remotePath);
    LinesOk("", temp, "", remotePath);
    UtilityNames();
    ScriptRuns(files, lines, width);
    var cs := CommandsOf(lines);
    assert cs[0] == Simple(["base64", "-d"], Some(temp), Some(remotePath), false);
    assert cs[1] == Simple(["rm", "-f", temp], None, None, false);
    assert Output(files, cs[0], width) == Some(bytes) && [] + bytes == bytes;
    RunsOn(files, cs, width, files[remotePath := bytes]);
    RunsOn(files[remotePath := bytes], cs[1..], width, files[remotePath := bytes] - {temp});
  }

  lemma ReadRuns(files: map<string, Bytes>, remotePath: string, width: nat)
    requires width > 0
    ensures var r := RunScript(files, Script(ReadBack(remotePath)), width);
      if remotePath !in files then r == Failed
      else
        && B.IsAscii(B.Wrap(B.Encode(files[remotePath]), width))
        && r == Done(files, Ascii(B.Wrap(B.Encode(files[remotePath]), width)))
  {
    hide IsPiece, IsPlain, RunScript, Script, Ascii;
    var lines := ReadBack(remotePath);
    if remotePath in files {
      B.EncodedText(files[remotePath]);
      B.WrappedAscii(B.Encode(files[remotePath]), width);
    }
    LinesOk("", "", "", remotePath);
    UtilityNames();
    ScriptRuns(files, lines, width);
    var cs := CommandsOf(lines);
    assert cs[0] == Simple(["base64"], Some(remotePath), None, false);
    assert cs[1..] == [];
  }

  lemma AsciiChars(s: string)
    requires B.IsAscii(s)
    ensures Chars(Ascii(s)) == s
  {
  }

  lemma AsciiGrows(body: string, offset: nat, next: nat)
    requires B.IsAscii(body) && offset <= next <= |body|
    ensures B.IsAscii(body[..offset]) && B.IsAscii(body[offset..next]) && B.IsAscii(body[..next])
    ensures Ascii(body[..offset]) + Ascii(body[offset..next]) == Ascii(body[..next])
  {
  }

  class Client {
    var files: map<string, Bytes>
    /** Where the sandbox's `base64` breaks lines. */
    const width: nat

    constructor (files: map<string, Bytes>, width: nat)
      requires width > 0
      ensures this.files == files && this.width == width
    {
      this.files := files;
      this.width := width;
    }

    /** `None` where a failing script makes the source throw. */
    method RunShell(script: string) returns (stdout: Option<Bytes>)
      requires width > 0
      modifies this
      ensures RunScript(old(files), script, width) ==
        if stdout.Some? then Done(files, stdout.value) else Failed
      ensures stdout == None ==> files == old(files)
    {
      match RunScript(files, script, width)
      case Done(now, out) =>
        files := now;
        stdout := Some(out);
      case Failed =>
        stdout := None;
    }

    /** The loop over 32 KiB chunks. */
    method AppendChunks(body: string, temp: string)
      requires width > 0 && B.IsAscii(body) && temp in files && files[temp] == []
      modifies this
      ensures files == old(files)[temp := Ascii(body)]
    {
      hide RunScript, Script, Ascii;
      NoAscii(body);
      var offset := 0;
      ghost var sent := 0;
      while offset < |body|
        invariant 0 <= offset && sent == MinLength(offset, body) && B.IsAscii(body[..sent])
        invariant files == old(files)[temp := Ascii(body[..sent])]
      {
        var next := MinLength(offset + CHUNK_SIZE, body);
        AsciiGrows(body, offset, next);
        AppendRuns(files, body[offset..next], temp, width);
        var done := RunShell(Script(AppendChunk(body[offset..next], temp)));
        offset := offset + CHUNK_SIZE;
        sent := next;
      }
      assert body[..sent] == body;
    }

    /** The file has the bytes, the upload's temporary file is gone, nothing else changed. */
    method WriteFile(remotePath: string, remoteDir: string, bytes: Bytes) returns (ok: bool)
      requires width > 0
      modifies this
      ensures ok && files == old(files)[remotePath := bytes] - {remotePath + ".dealdesk-upload.b64"}
    {
      hide RunScript, Script, Ascii, Chars;
      var body := B.Encode(bytes);
      B.EncodedText(bytes);
      B.RoundTrip(bytes);
      var temp := remotePath + ".dealdesk-upload.b64";
      assert |temp| > |remotePath|;
      PrepareRuns(files, remoteDir, temp, width);
      var done := RunShell(Script(PrepareUpload(remoteDir, temp)));
      AppendChunks(body, temp);
      AsciiChars(body);
      FinishRuns(files, temp, remotePath, bytes, width);
      done := RunShell(Script(FinishUpload(temp, remotePath)));
      ok := done.Some?;
    }

    /** Reads back what the file holds, from wrapped base64 with its white space taken out. */
    method ReadFile(remotePath: string) returns (bytes: Option<Bytes>)
      requires width > 0
      modifies this
      ensures files == old(files)
      ensures bytes == if remotePath in files then Some(files[remotePath]) else None
    {
      hide RunScript, Script, Ascii, Chars;
      ghost var before := files;
      ReadRuns(before, remotePath, width);
      var stdout := RunShell(Script(ReadBack(remotePath)));
      if stdout.None? {
        return None;
      }
      B.EncodedText(before[remotePath]);
      AsciiChars(B.Wrap(B.Encode(before[remotePath]), width));
      B.StripWrapped(B.Encode(before[remotePath]), width);
      B.RoundTrip(before[remotePath]);
      bytes := B.Decode(B.StripSpaces(Chars(stdout.value)));
    }
  }

  function MinLength(n: nat, s: string): nat {
    if n <= |s| then n else |s|
  }

  lemma NoAscii(s: string)
    ensures B.IsAscii(s[..0]) && Ascii(s[..0]) == []
  {
  }
}
