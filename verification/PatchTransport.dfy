/** A patch travels as line-wrapped base64 inside a triple-quoted Python literal. */
module PatchTransport {
  import opened FeatureErrors

  type Byte = x: int | 0 <= x < 256

  // ---- base64, section 4 of RFC 4648 ----

  function Symbol(v: int): (c: char)
    requires 0 <= v < 64
  {
    if v < 26 then 'A' + v as char
    else if v < 52 then 'a' + (v - 26) as char
    else if v < 62 then '0' + (v - 52) as char
    else if v == 62 then '+' else '/'
  }

  /** The value of a symbol; -1 for any other character. */
  function Value(c: char): (v: int)
    ensures -1 <= v < 64
  {
    if 'A' <= c <= 'Z' then (c - 'A') as int
    else if 'a' <= c <= 'z' then (c - 'a') as int + 26
    else if '0' <= c <= '9' then (c - '0') as int + 52
    else if c == '+' then 62
    else if c == '/' then 63
    else -1
  }

  const ALPHABET := "ABCDEFGHIJKLMNOPQRSTUVWXYZabcdefghijklmnopqrstuvwxyz0123456789+/"

  lemma SymbolsInOrder()
    ensures
      [Symbol(0), Symbol(1), Symbol(2), Symbol(3), Symbol(4), Symbol(5), Symbol(6), Symbol(7),
       Symbol(8), Symbol(9), Symbol(10), Symbol(11), Symbol(12), Symbol(13), Symbol(14), Symbol(15),
       Symbol(16), Symbol(17), Symbol(18), Symbol(19), Symbol(20), Symbol(21), Symbol(22), Symbol(23),
       Symbol(24), Symbol(25), Symbol(26), Symbol(27), Symbol(28), Symbol(29), Symbol(30), Symbol(31),
       Symbol(32), Symbol(33), Symbol(34), Symbol(35), Symbol(36), Symbol(37), Symbol(38), Symbol(39),
       Symbol(40), Symbol(41), Symbol(42), Symbol(43), Symbol(44), Symbol(45), Symbol(46), Symbol(47),
       Symbol(48), Symbol(49), Symbol(50), Symbol(51), Symbol(52), Symbol(53), Symbol(54), Symbol(55),
       Symbol(56), Symbol(57), Symbol(58), Symbol(59), Symbol(60), Symbol(61), Symbol(62), Symbol(63)] == ALPHABET
  {
  }

  lemma ValueOfSymbol(v: int)
    requires 0 <= v < 64
    ensures Value(Symbol(v)) == v && Symbol(v) != '='
  {
  }

  function Encode(b: seq<Byte>): string {
    if |b| == 0 then ""
    else if |b| == 1 then [Symbol(b[0] / 4), Symbol(b[0] % 4 * 16), '=', '=']
    else if |b| == 2 then
      [Symbol(b[0] / 4), Symbol(b[0] % 4 * 16 + b[1] / 16), Symbol(b[1] % 16 * 4), '=']
    else
      [Symbol(b[0] / 4), Symbol(b[0] % 4 * 16 + b[1] / 16), Symbol(b[1] % 16 * 4 + b[2] / 64), Symbol(b[2] % 64)]
      + Encode(b[3..])
  }

  /**
   The lenient decoder: characters outside the alphabet are skipped, padding ends the input.
   `quad` symbols of the current group are read, `left` holds their bits not yet given out,
   and `pads` padding characters have been seen since.
   */
  function Decode(s: string, quad: int, left: int, pads: int): Option<seq<Byte>>
    requires 0 <= quad < 4 && 0 <= pads
    requires 0 <= left < (if quad == 1 then 64 else if quad == 2 then 16 else if quad == 3 then 4 else 1)
  {
    if s == "" then (if quad == 0 then Some([]) else None)
    else if s[0] == '=' then
      if quad >= 2 && quad + pads + 1 >= 4 then Some([])
      else Decode(s[1..], quad, left, if quad >= 2 then pads + 1 else pads)
    else
      var v := Value(s[0]);
      if v < 0 then Decode(s[1..], quad, left, pads)
      else if quad == 0 then Decode(s[1..], 1, v, 0)
      else if quad == 1 then Prepend(left * 4 + v / 16, Decode(s[1..], 2, v % 16, 0))
      else if quad == 2 then Prepend(left * 16 + v / 4, Decode(s[1..], 3, v % 4, 0))
      else Prepend(left * 64 + v, Decode(s[1..], 0, 0, 0))
  }

  function Prepend(b: Byte, r: Option<seq<Byte>>): Option<seq<Byte>> {
    match r
    case Some(rest) => Some([b] + rest)
    case None => None
  }

  function B64Decode(s: string): Option<seq<Byte>> {
    Decode(s, 0, 0, 0)
  }

  // ---- wrapping ----

  const LINE := 64

  function Lines(s: string): seq<string> {
    if s == "" then []
    else if |s| <= LINE then [s]
    else [s[..LINE]] + Lines(s[LINE..])
  }

  function JoinLines(lines: seq<string>): string {
    if lines == [] then ""
    else if |lines| == 1 then lines[0]
    else lines[0] + "\n" + JoinLines(lines[1..])
  }

  function Wrapped(s: string): string {
    JoinLines(Lines(s)) + "\n"
  }

  // ---- the Python literal ----

  const QUOTES := "'''"
  const ASSIGNMENT := "PATCH_CONTENT="

  /** The source line put in front of the clone script. */
  function Rendered(content: string): string {
    ASSIGNMENT + QUOTES + "\\\n" + content + QUOTES + "\n"
  }

  /** The value of a triple-quoted literal, from behind its opening quotes; other escapes than a line continuation are not covered. */
  function LiteralValue(s: string): Option<string> {
    if QUOTES <= s then Some("")
    else if s == "" then None
    else if s[0] == '\\' then
      if |s| >= 2 && s[1] == '\n' then LiteralValue(s[2..]) else None
    else
      match LiteralValue(s[1..])
      case Some(rest) => Some([s[0]] + rest)
      case None => None
  }

  /** What the variable holds once Python has read the line. */
  function Assigned(source: string): Option<string> {
    if ASSIGNMENT + QUOTES <= source then LiteralValue(source[|ASSIGNMENT + QUOTES|..]) else None
  }

  // ---- encoder and decoder ----

  /** The module-wide cache of the encoded patch. */
  class PatchCache {
    var cached: string

    constructor ()
      ensures cached == ""
    {
      cached := "";
    }

    /** `diff` is the output of git diff, as bytes. A cached patch is returned whatever the diff is now. */
    method CreatePatch(diff: seq<Byte>) returns (lines: string)
      modifies this
      ensures lines == if old(cached) != "" then old(cached) else Wrapped(Encode(diff + [10]))
      ensures cached == lines
      ensures old(cached) == "" ==> Delivered(Rendered(lines)) == Some(diff + [10])
    {
      PatchRoundTrip(diff + [10]);
      if cached != "" {
        return cached;
      }
      var cut := CutLines(Encode(diff + [10]));
      lines := JoinLines(cut) + "\n";
      cached := lines;
    }
  }

  function Concatenated(lines: seq<string>): string {
    if lines == [] then "" else lines[0] + Concatenated(lines[1..])
  }

  lemma {:induction false} LineLengths(s: string)
    ensures forall i :: 0 <= i < |Lines(s)| ==> 0 < |Lines(s)[i]| <= LINE
    ensures forall i :: 0 <= i < |Lines(s)| - 1 ==> |Lines(s)[i]| == LINE
    ensures Concatenated(Lines(s)) == s
  {
    if s != "" && |s| <= LINE {
      assert Lines(s) == [s] && [s][1..] == [] && s + "" == s;
    }
    if |s| > LINE {
      LineLengths(s[LINE..]);
      assert s == s[..LINE] + s[LINE..] && Lines(s)[1..] == Lines(s[LINE..]);
    }
  }

  /** The comprehension over the starts of the lines: full lines but for the last, nothing lost. */
  method CutLines(s: string) returns (cut: seq<string>)
    ensures cut == Lines(s) && Concatenated(cut) == s
    ensures forall i :: 0 <= i < |cut| ==> 0 < |cut[i]| <= 64 && (i < |cut| - 1 ==> |cut[i]| == 64)
  {
    LineLengths(s);
    cut := [];
    var i := 0;
    assert s[0..] == s;
    while i < |s|
      invariant 0 <= i <= |s|
      invariant Lines(s) == cut + Lines(s[i..])
    {
      var n := if i + LINE <= |s| then i + LINE else |s|;
      LinesStep(s, i, n);
      cut := cut + [s[i..n]];
      i := n;
    }
    assert s[i..] == "" && cut + Lines("") == cut;
  }

  lemma LinesStep(s: string, i: nat, n: nat)
    requires i < |s| && n == if i + LINE <= |s| then i + LINE else |s|
    ensures Lines(s[i..]) == [s[i..n]] + Lines(s[n..])
  {
    var t := s[i..];
    assert t[..n - i] == s[i..n] && t[n - i..] == s[n..];
    if |t| <= LINE {
      assert t == s[i..n] && s[n..] == "";
    }
  }

  /** The bytes that the rendered line carries. */
  function Delivered(source: string): Option<seq<Byte>> {
    match Assigned(source)
    case Some(content) => B64Decode(content)
    case None => None
  }

  /** apply_patch: the bytes it hands to git apply. */
  method ApplyPatch(source: string) returns (patch: Option<seq<Byte>>)
    ensures patch == Delivered(source)
    ensures forall b :: source == Rendered(Wrapped(Encode(b))) ==> patch == Some(b)
  {
    forall b | source == Rendered(Wrapped(Encode(b))) ensures Delivered(source) == Some(b) {
      PatchRoundTrip(b);
    }
    match Assigned(source) {
      case None => return None;
      case Some(content) => return B64Decode(content);
    }
  }

  // ---- the round trip ----

  lemma {:induction false} DecodeEncode(b: seq<Byte>)
    ensures B64Decode(Encode(b)) == Some(b)
  {
    var e := Encode(b);
    if |b| == 0 {
    } else if |b| == 1 {
      DecodeOne(b[0]);
      assert b == [b[0]];
    } else if |b| == 2 {
      DecodeTwo(b[0], b[1]);
      assert b == [b[0], b[1]];
    } else {
      DecodeEncode(b[3..]);
      DecodeThree(b[0], b[1], b[2], Encode(b[3..]), b[3..]);
      assert b == [b[0], b[1], b[2]] + b[3..];
    }
  }

  lemma DecodeFirstTwo(v: int, w: int, rest: string)
    requires 0 <= v < 64 && 0 <= w < 64
    ensures B64Decode([Symbol(v), Symbol(w)] + rest) == Prepend(v * 4 + w / 16, Decode(rest, 2, w % 16, 0))
  {
    var s := [Symbol(v), Symbol(w)] + rest;
    ValueOfSymbol(v);
    ValueOfSymbol(w);
    assert s[1..] == [Symbol(w)] + rest && s[1..][1..] == rest;
    assert B64Decode(s) == Decode(s[1..], 1, v, 0);
  }

  lemma DecodeOne(a: Byte)
    ensures B64Decode([Symbol(a / 4), Symbol(a % 4 * 16), '=', '=']) == Some([a])
  {
    DecodeFirstTwo(a / 4, a % 4 * 16, "==");
    assert [Symbol(a / 4), Symbol(a % 4 * 16)] + "==" == [Symbol(a / 4), Symbol(a % 4 * 16), '=', '='];
    assert Decode("==", 2, 0, 0) == Some([]);
    assert a % 4 * 16 / 16 == a % 4 && a % 4 * 16 % 16 == 0;
    assert [a] + [] == [a];
  }

  lemma DecodeTwo(a: Byte, b: Byte)
    ensures B64Decode([Symbol(a / 4), Symbol(a % 4 * 16 + b / 16), Symbol(b % 16 * 4), '=']) == Some([a, b])
  {
    var x, y, z := a / 4, a % 4 * 16 + b / 16, b % 16 * 4;
    var tail := [Symbol(z), '='];
    DecodeFirstTwo(x, y, tail);
    ValueOfSymbol(z);
    assert [Symbol(x), Symbol(y)] + tail == [Symbol(x), Symbol(y), Symbol(z), '='];
    assert tail[1..] == "=";
    assert Decode("=", 3, 0, 0) == Some([]);
    assert y % 16 == b / 16 && y / 16 == a % 4 && z / 4 == b % 16 && z % 4 == 0;
    assert [a] + ([b] + []) == [a, b];
    assert Decode(tail, 2, b / 16, 0) == Prepend(b / 16 * 16 + z / 4, Decode("=", 3, 0, 0));
  }

  lemma DecodeThree(a: Byte, b: Byte, c: Byte, rest: string, r: seq<Byte>)
    requires B64Decode(rest) == Some(r)
    ensures B64Decode([Symbol(a / 4), Symbol(a % 4 * 16 + b / 16), Symbol(b % 16 * 4 + c / 64), Symbol(c % 64)] + rest)
         == Some([a, b, c] + r)
  {
    var x, y, z, w := a / 4, a % 4 * 16 + b / 16, b % 16 * 4 + c / 64, c % 64;
    var tail := [Symbol(z), Symbol(w)] + rest;
    DecodeFirstTwo(x, y, tail);
    assert [Symbol(x), Symbol(y)] + tail == [Symbol(x), Symbol(y), Symbol(z), Symbol(w)] + rest;
    Sextets(a, b, c);
    DecodeLastTwo(b / 16, z, w, rest);
    PrependThree(a, b, c, r);
  }

  /** The two middle symbols of a group hold the halves of their neighbours. */
  lemma Sextets(a: Byte, b: Byte, c: Byte)
    ensures (a % 4 * 16 + b / 16) % 16 == b / 16 && (a % 4 * 16 + b / 16) / 16 == a % 4
    ensures (b % 16 * 4 + c / 64) % 4 == c / 64 && (b % 16 * 4 + c / 64) / 4 == b % 16
  {
  }

  lemma DecodeLastTwo(left: int, z: int, w: int, rest: string)
    requires 0 <= left < 16 && 0 <= z < 64 && 0 <= w < 64
    ensures Decode([Symbol(z), Symbol(w)] + rest, 2, left, 0)
         == Prepend(left * 16 + z / 4, Prepend(z % 4 * 64 + w, B64Decode(rest)))
  {
    var s := [Symbol(z), Symbol(w)] + rest;
    ValueOfSymbol(z);
    ValueOfSymbol(w);
    assert s[1..] == [Symbol(w)] + rest && s[1..][1..] == rest;
    assert Decode(s[1..], 3, z % 4, 0) == Prepend(z % 4 * 64 + w, B64Decode(rest));
  }

  lemma PrependThree(a: Byte, b: Byte, c: Byte, r: seq<Byte>)
    ensures Prepend(a, Prepend(b, Prepend(c, Some(r)))) == Some([a, b, c] + r)
  {
    assert [a] + ([b] + ([c] + r)) == [a, b, c] + r;
  }

  function Unbroken(s: string): string {
    if s == "" then "" else if s[0] == '\n' then Unbroken(s[1..]) else [s[0]] + Unbroken(s[1..])
  }

  /** Line breaks make no difference to the decoder. */
  lemma {:induction false} DecodeUnbroken(s: string, quad: int, left: int, pads: int)
    requires 0 <= quad < 4 && 0 <= pads
    requires 0 <= left < (if quad == 1 then 64 else if quad == 2 then 16 else if quad == 3 then 4 else 1)
    ensures Decode(s, quad, left, pads) == Decode(Unbroken(s), quad, left, pads)
  {
    if s != "" {
      var v, u := Value(s[0]), Unbroken(s);
      if s[0] == '\n' {
        DecodeUnbroken(s[1..], quad, left, pads);
      } else {
        assert u[0] == s[0] && u[1..] == Unbroken(s[1..]);
        if s[0] == '=' {
          DecodeUnbroken(s[1..], quad, left, if quad >= 2 then pads + 1 else pads);
        } else if v < 0 {
          DecodeUnbroken(s[1..], quad, left, pads);
        } else if quad == 0 {
          DecodeUnbroken(s[1..], 1, v, 0);
        } else if quad == 1 {
          DecodeUnbroken(s[1..], 2, v % 16, 0);
        } else if quad == 2 {
          DecodeUnbroken(s[1..], 3, v % 4, 0);
        } else {
          DecodeUnbroken(s[1..], 0, 0, 0);
        }
      }
    }
  }

  lemma {:induction false} UnbrokenConcat(a: string, b: string)
    ensures Unbroken(a + b) == Unbroken(a) + Unbroken(b)
  {
    if a == "" {
      assert a + b == b;
    } else {
      assert (a + b)[0] == a[0] && (a + b)[1..] == a[1..] + b;
      UnbrokenConcat(a[1..], b);
    }
  }

  lemma {:induction false} UnbrokenPlain(s: string)
    requires '\n' !in s
    ensures Unbroken(s) == s
  {
    if s != "" {
      UnbrokenPlain(s[1..]);
    }
  }

  lemma {:induction false} UnwrapLines(s: string)
    requires '\n' !in s
    ensures Unbroken(JoinLines(Lines(s))) == s
  {
    if |s| <= LINE {
      UnbrokenPlain(s);
    } else {
      var head, tail := s[..LINE], s[LINE..];
      UnwrapLines(tail);
      JoinMore(head, Lines(tail));
      UnbrokenLine(head, JoinLines(Lines(tail)));
      assert Lines(s) == [head] + Lines(tail) && Lines(tail) != [];
      assert s == head + tail;
    }
  }

  lemma JoinMore(head: string, lines: seq<string>)
    requires lines != []
    ensures JoinLines([head] + lines) == head + "\n" + JoinLines(lines)
  {
    assert ([head] + lines)[1..] == lines;
  }

  lemma UnbrokenLine(head: string, rest: string)
    requires '\n' !in head
    ensures Unbroken(head + "\n" + rest) == head + Unbroken(rest)
  {
    UnbrokenPlain(head);
    UnbrokenConcat(head, "\n" + rest);
    assert head + "\n" + rest == head + ("\n" + rest);
    assert ("\n" + rest)[1..] == rest;
  }

  /** The characters an encoded patch consists of. */
  predicate Harmless(c: char) {
    c != '\'' && c != '\\'
  }

  lemma {:induction false} EncodedCharacters(b: seq<Byte>)
    ensures forall c :: c in Encode(b) ==> Harmless(c) && c != '\n'
  {
    if |b| >= 3 {
      EncodedCharacters(b[3..]);
    }
  }

  lemma {:induction false} WrappedCharacters(s: string)
    requires forall c :: c in s ==> Harmless(c)
    ensures forall c :: c in JoinLines(Lines(s)) ==> Harmless(c)
  {
    if |s| > LINE {
      WrappedCharacters(s[LINE..]);
      assert Lines(s)[1..] == Lines(s[LINE..]) && Lines(s[LINE..]) != [];
    }
  }

  /** A text without quotes and backslashes is the value of its literal. */
  lemma {:induction false} LiteralOfHarmless(content: string, after: string)
    requires forall c :: c in content ==> Harmless(c)
    ensures LiteralValue(content + QUOTES + after) == Some(content)
  {
    var s := content + QUOTES + after;
    if content == "" {
      assert QUOTES <= s;
    } else {
      LiteralOfHarmless(content[1..], after);
      assert s[1..] == content[1..] + QUOTES + after;
      assert s[0] == content[0] && Harmless(s[0]);
      assert QUOTES[0] == '\'' && !(QUOTES <= s);
      assert [s[0]] + content[1..] == content;
    }
  }

  lemma RenderedLiteral(content: string)
    requires forall c :: c in content ==> Harmless(c)
    ensures Assigned(Rendered(content)) == Some(content)
  {
    var opening, s := ASSIGNMENT + QUOTES, Rendered(content);
    var body := "\\\n" + (content + QUOTES + "\n");
    assert s == opening + body;
    assert s[|opening|..] == body;
    assert body[2..] == content + QUOTES + "\n";
    assert body[0] == '\\' && body[1] == '\n' && QUOTES[0] == '\'';
    LiteralOfHarmless(content, "\n");
  }

  /** For every byte sequence: encode, wrap, render, read back, decode. */
  lemma PatchRoundTrip(b: seq<Byte>)
    ensures Delivered(Rendered(Wrapped(Encode(b)))) == Some(b)
  {
    var e := Encode(b);
    EncodedCharacters(b);
    WrappedCharacters(e);
    RenderedLiteral(Wrapped(e));
    UnwrapLines(e);
    UnbrokenConcat(JoinLines(Lines(e)), "\n");
    assert Unbroken("\n") == "";
    assert Unbroken(Wrapped(e)) == e;
    DecodeUnbroken(Wrapped(e), 0, 0, 0);
    DecodeEncode(b);
  }

  /** Each line followed by a line break. */
  function Terminated(lines: seq<string>): string {
    if lines == [] then "" else lines[0] + "\n" + Terminated(lines[1..])
  }

  lemma {:induction false} JoinedTerminated(lines: seq<string>)
    requires lines != []
    ensures JoinLines(lines) + "\n" == Terminated(lines)
  {
    if |lines| == 1 {
      assert lines[1..] == [] && lines[0] + "\n" + "" == lines[0] + "\n";
    } else {
      JoinedTerminated(lines[1..]);
      assert lines[0] + "\n" + JoinLines(lines[1..]) + "\n" == lines[0] + "\n" + (JoinLines(lines[1..]) + "\n");
    }
  }

  /** The wrapped text is made of the lines of 64 characters, each ended by a line break. */
  lemma WrappedIsTerminated(s: string)
    requires s != ""
    ensures Wrapped(s) == Terminated(Lines(s))
  {
    JoinedTerminated(Lines(s));
  }

  lemma RenderedText(content: string)
    ensures Rendered(content) == "PATCH_CONTENT='''\\\n" + content + "'''\n"
  {
    assert ASSIGNMENT + QUOTES + "\\\n" == "PATCH_CONTENT='''\\\n";
  }

  /** The encoder on the test vectors of section 10 of RFC 4648, and on bytes that need the last two symbols. */
  lemma EncodedVectors()
    ensures Encode([102]) == "Zg==" && Encode([102, 111]) == "Zm8=" && Encode([102, 111, 111]) == "Zm9v"
    ensures Encode([251, 239, 255]) == "++//"
  {
    assert Encode([]) == "";
    var f, p := [102, 111, 111], [251, 239, 255];
    assert f[3..] == [] && p[3..] == [];
  }
}
