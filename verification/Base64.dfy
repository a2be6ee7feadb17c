/** Base64 as in section 4 of RFC 4648, and the line breaks that `base64` puts into its output. */
module Base64 {
  import opened Optional

  type Byte = x: int | 0 <= x < 256
  type Sextet = x: int | 0 <= x < 64

  function Digit(i: Sextet): char {
    if i < 26 then ('A' as int + i) as char
    else if i < 52 then ('a' as int + i - 26) as char
    else if i < 62 then ('0' as int + i - 52) as char
    else if i == 62 then '+' else '/'
  }

  function Value(c: char): Option<Sextet> {
    if 'A' <= c <= 'Z' then Some(c as int - 'A' as int)
    else if 'a' <= c <= 'z' then Some(c as int - 'a' as int + 26)
    else if '0' <= c <= '9' then Some(c as int - '0' as int + 52)
    else if c == '+' then Some(62)
    else if c == '/' then Some(63)
    else None
  }

  lemma DigitValue(i: Sextet)
    ensures Value(Digit(i)) == Some(i) && Digit(i) != '='
    ensures !IsSpace(Digit(i)) && (Digit(i) as int) < 128
  {
  }

  /** Three bytes as four digits. */
  function Quad(a: Byte, b: Byte, c: Byte): (s: string)
    ensures |s| == 4
  {
    [Digit(a / 4), Digit(a % 4 * 16 + b / 16), Digit(b % 16 * 4 + c / 64), Digit(c % 64)]
  }

  function Encode(bytes: seq<Byte>): string {
    if |bytes| == 0 then []
    else if |bytes| == 1 then Quad(bytes[0], 0, 0)[..2] + "=="
    else if |bytes| == 2 then Quad(bytes[0], bytes[1], 0)[..3] + "="
    else Quad(bytes[0], bytes[1], bytes[2]) + Encode(bytes[3..])
  }

  /** The bytes of a group of two, three or four digits. */
  function Group1(c0: char, c1: char): Option<seq<Byte>> {
    var p, q := Value(c0), Value(c1);
    if p.None? || q.None? then None
    else
      var a: Byte := p.value * 4 + q.value / 16;
      Some([a])
  }

  function Group2(c0: char, c1: char, c2: char): Option<seq<Byte>> {
    var q, r, front := Value(c1), Value(c2), Group1(c0, c1);
    if front.None? || r.None? then None
    else
      var b: Byte := q.value % 16 * 16 + r.value / 4;
      Some(front.value + [b])
  }

  function Group3(c0: char, c1: char, c2: char, c3: char): Option<seq<Byte>> {
    var r, t, front := Value(c2), Value(c3), Group2(c0, c1, c2);
    if front.None? || t.None? then None
    else
      var c: Byte := r.value % 4 * 64 + t.value;
      Some(front.value + [c])
  }

  function Decode(s: string): Option<seq<Byte>> {
    if |s| == 0 then Some([])
    else if |s| < 4 then None
    else if |s| == 4 && s[3] == '=' then if s[2] == '=' then Group1(s[0], s[1]) else Group2(s[0], s[1], s[2])
    else
      var head, rest := Group3(s[0], s[1], s[2], s[3]), Decode(s[4..]);
      if head.None? || rest.None? then None else Some(head.value + rest.value)
  }

  /** Table 1 of RFC 4648: where its four runs start and end; within a run characters follow each other. */
  lemma Alphabet()
    ensures Digit(0) == 'A' && Digit(25) == 'Z' && Digit(26) == 'a' && Digit(51) == 'z' && Digit(52) == '0' && Digit(61) == '9'
    ensures Digit(62) == '+' && Digit(63) == '/'
    ensures forall i: Sextet :: i != 25 && i != 51 && i < 61 ==> Digit(i + 1) as int == Digit(i) as int + 1
  {
  }

  /** The four digits of three bytes are those of the number that the bytes make, highest first. */
  lemma QuadIsNumber(a: Byte, b: Byte, c: Byte)
    ensures var q := Quad(a, b, c);
      && Value(q[0]).Some? && Value(q[1]).Some? && Value(q[2]).Some? && Value(q[3]).Some?
      && Value(q[0]).value * 262144 + Value(q[1]).value * 4096 + Value(q[2]).value * 64 + Value(q[3]).value
         == a * 65536 + b * 256 + c
  {
    hide Digit, Value;
    DigitValue(a / 4);
    DigitValue(a % 4 * 16 + b / 16);
    DigitValue(b % 16 * 4 + c / 64);
    DigitValue(c % 64);
  }

  lemma QuadHasNoPad(a: Byte, b: Byte, c: Byte)
    ensures forall k :: 0 <= k < 4 ==> Quad(a, b, c)[k] != '='
  {
    hide Digit, Value;
    DigitValue(a / 4);
    DigitValue(a % 4 * 16 + b / 16);
    DigitValue(b % 16 * 4 + c / 64);
    DigitValue(c % 64);
  }

  /** How many pad characters end the text. */
  function Pads(s: string): nat {
    if |s| > 0 && s[|s| - 1] == '=' then 1 + Pads(s[..|s| - 1]) else 0
  }

  lemma {:induction false} PadsBehind(s: string, t: string)
    requires |t| > 0 && t[0] != '='
    ensures Pads(s + t) == Pads(t)
  {
    var n := |t| - 1;
    assert (s + t)[|s + t| - 1] == t[n] && (s + t)[..|s + t| - 1] == s + t[..n];
    if t[n] == '=' {
      PadsBehind(s, t[..n]);
    }
  }

  lemma OnePad(s: string)
    ensures Pads(s + "=") == 1 + Pads(s)
  {
    assert (s + "=")[..|s|] == s;
  }

  lemma OneByteLeft(a: Byte)
    ensures var s := Quad(a, 0, 0)[..2] + "=="; |s| == 4 && s[0] != '=' && Pads(s) == 2
  {
    QuadHasNoPad(a, 0, 0);
    hide Quad;
    var q := Quad(a, 0, 0)[..2];
    assert q[1] != '=' && q + "==" == q + "=" + "=";
    OnePad(q);
    OnePad(q + "=");
  }

  lemma TwoBytesLeft(a: Byte, b: Byte)
    ensures var s := Quad(a, b, 0)[..3] + "="; |s| == 4 && s[0] != '=' && Pads(s) == 1
  {
    QuadHasNoPad(a, b, 0);
    hide Quad;
    assert Quad(a, b, 0)[..3][2] != '=';
    OnePad(Quad(a, b, 0)[..3]);
  }

  /** Two pad characters for one byte left over, one for two. */
  lemma {:induction false} PaddingIs(bytes: seq<Byte>)
    ensures |Encode(bytes)| == (|bytes| + 2) / 3 * 4 && (bytes != [] ==> Encode(bytes)[0] != '=')
    ensures Pads(Encode(bytes)) == if |bytes| % 3 == 0 then 0 else 3 - |bytes| % 3
  {
    hide Quad, Pads;
    if |bytes| == 0 {
      NoPads();
    } else if |bytes| == 1 {
      OneByteLeft(bytes[0]);
    } else if |bytes| == 2 {
      TwoBytesLeft(bytes[0], bytes[1]);
    } else {
      var q := Quad(bytes[0], bytes[1], bytes[2]);
      QuadHasNoPad(bytes[0], bytes[1], bytes[2]);
      PaddingIs(bytes[3..]);
      if |bytes| == 3 {
        assert [] + q == q && Encode(bytes) == q + Encode([]) == q;
        NoPadBehind(q);
      } else {
        PadsBehind(q, Encode(bytes[3..]));
      }
    }
  }

  lemma NoPads()
    ensures Pads([]) == 0
  {
  }

  lemma NoPadBehind(s: string)
    requires |s| > 0 && s[|s| - 1] != '='
    ensures Pads(s) == 0
  {
  }

  /** Splitting three bytes into sextets loses nothing. */
  lemma Sextets(a: Byte, b: Byte, c: Byte)
    ensures a / 4 * 4 + (a % 4 * 16 + b / 16) / 16 == a
    ensures (a % 4 * 16 + b / 16) % 16 * 16 + (b % 16 * 4 + c / 64) / 4 == b
    ensures (b % 16 * 4 + c / 64) % 4 * 64 + c % 64 == c
  {
    assert (a % 4 * 16 + b / 16) / 16 == a % 4 && (a % 4 * 16 + b / 16) % 16 == b / 16;
    assert (b % 16 * 4 + c / 64) / 4 == b % 16 && (b % 16 * 4 + c / 64) % 4 == c / 64;
  }

  lemma QuadGroup(a: Byte, b: Byte, c: Byte)
    ensures var quad := Quad(a, b, c);
      && (b == 0 ==> Group1(quad[0], quad[1]) == Some([a]))
      && (c == 0 ==> Group2(quad[0], quad[1], quad[2]) == Some([a, b]))
      && Group3(quad[0], quad[1], quad[2], quad[3]) == Some([a, b, c])
      && quad[2] != '=' && quad[3] != '='
  {
    DigitValue(a / 4);
    DigitValue(a % 4 * 16 + b / 16);
    DigitValue(b % 16 * 4 + c / 64);
    DigitValue(c % 64);
    Sextets(a, b, c);
    assert [a] + [b] == [a, b] && [a, b] + [c] == [a, b, c];
    hide Digit, Value;
  }

  lemma {:induction false} RoundTrip(bytes: seq<Byte>)
    ensures Decode(Encode(bytes)) == Some(bytes)
  {
    hide Group1, Group2, Group3, Quad;
    var s := Encode(bytes);
    if |bytes| == 1 {
      QuadGroup(bytes[0], 0, 0);
      assert [bytes[0]] == bytes;
    } else if |bytes| == 2 {
      QuadGroup(bytes[0], bytes[1], 0);
      assert [bytes[0], bytes[1]] == bytes;
    } else if |bytes| > 2 {
      RoundTrip(bytes[3..]);
      QuadGroup(bytes[0], bytes[1], bytes[2]);
      assert s[4..] == Encode(bytes[3..]);
      assert [bytes[0], bytes[1], bytes[2]] + bytes[3..] == bytes;
    }
  }

  // ----- line breaks -----

  /** JavaScript's `\s` on ASCII. */
  predicate IsSpace(c: char) {
    c == ' ' || ('\t' <= c <= '\r')
  }

  predicate IsAscii(s: string) {
    forall i :: 0 <= i < |s| ==> s[i] as int < 128
  }

  predicate NoSpaces(s: string) {
    forall i :: 0 <= i < |s| ==> !IsSpace(s[i])
  }

  lemma {:induction false} EncodedText(bytes: seq<Byte>)
    ensures NoSpaces(Encode(bytes)) && IsAscii(Encode(bytes))
  {
    forall i: Sextet ensures !IsSpace(Digit(i)) && (Digit(i) as int) < 128 {
      DigitValue(i);
    }
    if |bytes| >= 3 {
      EncodedText(bytes[3..]);
    }
  }

  /** The output of `base64`: lines of at most `width` digits. */
  function Wrap(s: string, width: nat): string
    requires width > 0
  {
    if |s| == 0 then []
    else if |s| <= width then s + "\n"
    else s[..width] + ("\n" + Wrap(s[width..], width))
  }

  /** `replace(/\s+/g, "")` */
  function StripSpaces(s: string): string {
    if |s| == 0 then [] else (if IsSpace(s[0]) then [] else [s[0]]) + StripSpaces(s[1..])
  }

  lemma {:induction false} StripLine(line: string, t: string)
    requires NoSpaces(line)
    ensures StripSpaces(line + t) == line + StripSpaces(t)
  {
    if |line| == 0 {
      assert line + t == t;
    } else {
      StripLine(line[1..], t);
      assert (line + t)[0] == line[0] && (line + t)[1..] == line[1..] + t;
      assert StripSpaces(line + t) == [line[0]] + (line[1..] + StripSpaces(t));
      assert line == [line[0]] + line[1..];
    }
  }

  lemma StripFirstLine(line: string, t: string)
    requires NoSpaces(line)
    ensures StripSpaces(line + ("\n" + t)) == line + StripSpaces(t)
  {
    hide StripSpaces, NoSpaces;
    StripLine(line, "\n" + t);
    NewlineStrips(t);
  }

  lemma NewlineStrips(t: string)
    ensures StripSpaces("\n" + t) == StripSpaces(t)
  {
    assert ("\n" + t)[1..] == t;
  }

  lemma StripLastLine(line: string)
    requires NoSpaces(line)
    ensures StripSpaces("") == "" && StripSpaces(line + "\n") == line
  {
    StripFirstLine(line, "");
    assert "\n" + "" == "\n" && line + "" == line;
  }

  lemma SplitLine(s: string, width: nat)
    requires 0 < width < |s| && NoSpaces(s)
    ensures NoSpaces(s[..width]) && NoSpaces(s[width..]) && s[..width] + s[width..] == s
    ensures Wrap(s, width) == s[..width] + ("\n" + Wrap(s[width..], width))
  {
    hide IsSpace;
  }

  lemma {:induction false} StripWrapped(s: string, width: nat)
    requires width > 0 && NoSpaces(s)
    ensures StripSpaces(Wrap(s, width)) == s
  {
    hide StripSpaces, NoSpaces;
    if |s| <= width {
      StripLastLine(s);
    } else {
      SplitLine(s, width);
      StripWrapped(s[width..], width);
      StripFirstLine(s[..width], Wrap(s[width..], width));
    }
  }

  lemma {:induction false} WrappedAscii(s: string, width: nat)
    requires width > 0 && IsAscii(s)
    ensures IsAscii(Wrap(s, width))
  {
    if |s| > width {
      WrappedAscii(s[width..], width);
    }
  }
}
