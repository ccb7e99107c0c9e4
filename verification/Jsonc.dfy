/** Comment stripping for JSON with comments (internal/jsonc/jsonc.go).

    `StripComments` is the single-pass loop of the source. `Strip` is an independent,
    recursive lexer with one mode per lexical context. The loop is proved equal to the
    lexer, and the lexer is proved to keep layout, keep every significant byte in place,
    and to be idempotent. */
module Jsonc {

  type byte = b: int | 0 <= b < 256

  const QUOTE: byte := 34      // '"'
  const BACKSLASH: byte := 92  // '\\'
  const SLASH: byte := 47      // '/'
  const STAR: byte := 42       // '*'
  const SPACE: byte := 32
  const LF: byte := 10
  const CR: byte := 13

  /** The lexical context of the next byte. */
  datatype Mode = Code | Literal | Escaped | LineComment | BlockComment

  predicate IsNewline(b: byte) {
    b == LF || b == CR
  }

  /** s starts with the two bytes a and b. */
  predicate StartsWith(s: seq<byte>, a: byte, b: byte) {
    |s| >= 2 && s[0] == a && s[1] == b
  }

  predicate InComment(m: Mode) {
    m.LineComment? || m.BlockComment?
  }

  /** The mode that follows a byte that is not part of a comment. */
  function After(m: Mode, b: byte): Mode
    requires !InComment(m)
  {
    match m
    case Code => if b == QUOTE then Literal else Code
    case Escaped => Literal
    case _ => if b == BACKSLASH then Escaped else if b == QUOTE then Code else Literal
  }

  /** What remains of s when it is read in mode m: comments are blanked out. */
  function Strip(m: Mode, s: seq<byte>): seq<byte>
    decreases s
  {
    if s == [] then []
    else if m == LineComment then
      if IsNewline(s[0]) then [s[0]] + Strip(Code, s[1..]) else Strip(LineComment, s[1..])
    else if m == BlockComment then
      if StartsWith(s, STAR, SLASH) then [SPACE, SPACE] + Strip(Code, s[2..])
      else [if IsNewline(s[0]) then s[0] else SPACE] + Strip(BlockComment, s[1..])
    else
      if m == Code && StartsWith(s, SLASH, SLASH) then Strip(LineComment, s[2..])
      else if m == Code && StartsWith(s, SLASH, STAR) then [SPACE, SPACE] + Strip(BlockComment, s[2..])
      else [s[0]] + Strip(After(m, s[0]), s[1..])
  }

  // ---------------------------------------------------------------- the loop

  /** After i bytes the loop has produced `result` and is in mode m. */
  ghost predicate Progress(data: seq<byte>, i: nat, m: Mode, result: seq<byte>) {
    i <= |data| && result + Strip(m, data[i..]) == Strip(Code, data)
  }

  /** Copying a byte that opens no comment. */
  lemma Copied(data: seq<byte>, i: nat, m: Mode, result: seq<byte>)
    requires Progress(data, i, m, result) && i < |data| && !InComment(m)
    requires m == Code ==> !StartsWith(data[i..], SLASH, SLASH) && !StartsWith(data[i..], SLASH, STAR)
    ensures Progress(data, i + 1, After(m, data[i]), result + [data[i]])
  {
    assert data[i..][1..] == data[i + 1..];
    assert result + ([data[i]] + Strip(After(m, data[i]), data[i + 1..]))
        == result + [data[i]] + Strip(After(m, data[i]), data[i + 1..]);
  }

  /** Blanking the opener of a block comment. */
  lemma OpenedBlock(data: seq<byte>, i: nat, result: seq<byte>)
    requires Progress(data, i, Code, result) && StartsWith(data[i..], SLASH, STAR)
    ensures Progress(data, i + 2, BlockComment, result + [SPACE, SPACE])
  {
    assert data[i..][2..] == data[i + 2..];
    assert result + ([SPACE, SPACE] + Strip(BlockComment, data[i + 2..]))
        == result + [SPACE, SPACE] + Strip(BlockComment, data[i + 2..]);
  }

  /** The source's loop: an index, two flags and a result that grows. */
  method StripComments(data: seq<byte>) returns (result: seq<byte>)
    ensures result == Strip(Code, data)
  {
    result := [];
    var inString, escaped := false, false;
    var i := 0;
    assert data[0..] == data;
    while i < |data|
      invariant escaped ==> inString
      invariant Progress(data, i, if escaped then Escaped else if inString then Literal else Code, result)
    {
      var c := data[i];
      if escaped {
        Copied(data, i, Escaped, result);
        result := result + [c];
        escaped := false;
      } else if inString {
        Copied(data, i, Literal, result);
        result := result + [c];
        if c == BACKSLASH {
          escaped := true;
        } else if c == QUOTE {
          inString := false;
        }
      } else if c == QUOTE {
        Copied(data, i, Code, result);
        inString := true;
        result := result + [c];
      } else if c == SLASH && i + 1 < |data| && data[i + 1] == SLASH {
        assert data[i..][2..] == data[i + 2..];
        result, i := SkipLineComment(data, result, i + 2);
      } else if c == SLASH && i + 1 < |data| && data[i + 1] == STAR {
        OpenedBlock(data, i, result);
        result, i := BlankBlockComment(data, result + [SPACE, SPACE], i + 2);
        i := i - 1;
      } else {
        Copied(data, i, Code, result);
        result := result + [c];
      }
      i := i + 1;
    }
    assert data[i..] == [];
  }

  /** The inner loop over a line comment: skips to the newline, which is kept. The
      returned index is that of the last byte read. */
  method SkipLineComment(data: seq<byte>, prefix: seq<byte>, start: nat) returns (result: seq<byte>, i: nat)
    requires 0 < start && Progress(data, start, LineComment, prefix)
    ensures start <= i + 1 && i < |data|
    ensures Progress(data, i + 1, Code, result)
  {
    result, i := prefix, start;
    while i < |data| && data[i] != LF && data[i] != CR
      invariant start <= i
      invariant Progress(data, i, LineComment, prefix)
    {
      assert data[i..][1..] == data[i + 1..];
      i := i + 1;
    }
    if i < |data| {
      assert data[i..][1..] == data[i + 1..];
      assert prefix + ([data[i]] + Strip(Code, data[i + 1..])) == prefix + [data[i]] + Strip(Code, data[i + 1..]);
      result := result + [data[i]];
    } else {
      assert data[i..] == [];
      i := i - 1;
    }
  }

  /** The inner loop over a block comment: blanks it out, keeping newlines. */
  method BlankBlockComment(data: seq<byte>, prefix: seq<byte>, start: nat) returns (result: seq<byte>, i: nat)
    requires Progress(data, start, BlockComment, prefix)
    ensures start <= i
    ensures Progress(data, i, Code, result)
  {
    result, i := prefix, start;
    while i < |data|
      invariant start <= i
      invariant Progress(data, i, BlockComment, result)
    {
      if data[i] == STAR && i + 1 < |data| && data[i + 1] == SLASH {
        assert data[i..][2..] == data[i + 2..];
        assert result + ([SPACE, SPACE] + Strip(Code, data[i + 2..]))
               == result + [SPACE, SPACE] + Strip(Code, data[i + 2..]);
        result := result + [SPACE, SPACE];
        i := i + 2;
        return;
      }
      ghost var blank := if IsNewline(data[i]) then data[i] else SPACE;
      assert data[i..][1..] == data[i + 1..];
      assert result + ([blank] + Strip(BlockComment, data[i + 1..]))
             == result + [blank] + Strip(BlockComment, data[i + 1..]);
      if data[i] == LF || data[i] == CR {
        result := result + [data[i]];
      } else {
        result := result + [SPACE];
      }
      i := i + 1;
    }
    assert data[i..] == [];
  }

  // ---------------------------------------------------------------- layout

  /** The newline and carriage-return bytes of s, in order. */
  function Newlines(s: seq<byte>): seq<byte> {
    if s == [] then []
    else (if IsNewline(s[0]) then [s[0]] else []) + Newlines(s[1..])
  }

  /** The maximal stretch of s before its first newline. */
  function FirstLine(s: seq<byte>): seq<byte> {
    if s == [] || IsNewline(s[0]) then [] else [s[0]] + FirstLine(s[1..])
  }

  /** The lines of s, split at every newline byte. */
  function Lines(s: seq<byte>): (ls: seq<seq<byte>>)
    ensures |ls| == |Newlines(s)| + 1
  {
    if s == [] then [[]]
    else if IsNewline(s[0]) then [[]] + Lines(s[1..])
    else var ls := Lines(s[1..]); [[s[0]] + ls[0]] + ls[1..]
  }

  /** `kept` is a prefix of `line` in which every byte is kept or replaced by a space. */
  predicate Blanked(kept: seq<byte>, line: seq<byte>) {
    && |kept| <= |line|
    && forall k :: 0 <= k < |kept| ==> kept[k] == line[k] || kept[k] == SPACE
  }

  ghost predicate SameLayout(out: seq<byte>, inp: seq<byte>) {
    && Newlines(out) == Newlines(inp)
    && forall k :: 0 <= k < |Lines(inp)| ==> Blanked(Lines(out)[k], Lines(inp)[k])
  }

  /** Prefixing both sides with a byte, the second of them kept or blanked, keeps the layout. */
  lemma SameLayoutStep(o: byte, i: byte, out: seq<byte>, inp: seq<byte>)
    requires SameLayout(out, inp)
    requires o == i || (o == SPACE && !IsNewline(i))
    ensures SameLayout([o] + out, [i] + inp)
  {
    assert ([o] + out)[1..] == out && ([i] + inp)[1..] == inp;
    forall k | 0 <= k < |Lines([i] + inp)|
      ensures Blanked(Lines([o] + out)[k], Lines([i] + inp)[k])
    {
      if IsNewline(i) {
        if k > 0 {
          assert Blanked(Lines(out)[k - 1], Lines(inp)[k - 1]);
        }
      } else {
        assert Blanked(Lines(out)[k], Lines(inp)[k]);
      }
    }
  }

  /** Dropping a byte from the end of a line keeps the layout. */
  lemma SameLayoutDrop(i: byte, out: seq<byte>, inp: seq<byte>)
    requires SameLayout(out, inp) && !IsNewline(i)
    requires Lines(out)[0] == []
    ensures SameLayout(out, [i] + inp)
  {
    assert ([i] + inp)[1..] == inp;
    forall k | 0 <= k < |Lines([i] + inp)|
      ensures Blanked(Lines(out)[k], Lines([i] + inp)[k])
    {
      assert Blanked(Lines(out)[k], Lines(inp)[k]);
    }
  }

  /** Stripping keeps the newline bytes, and each output line is a blanked prefix of its
      input line; a line comment contributes nothing to the line it is on. */
  lemma {:induction false} StripKeepsLayout(m: Mode, s: seq<byte>)
    ensures SameLayout(Strip(m, s), s)
    ensures m == LineComment ==> Lines(Strip(m, s))[0] == []
    decreases s
  {
    if s != [] {
      assert s == [s[0]] + s[1..];
      if m == LineComment {
        if IsNewline(s[0]) {
          StripKeepsLayout(Code, s[1..]);
          SameLayoutStep(s[0], s[0], Strip(Code, s[1..]), s[1..]);
        } else {
          StripKeepsLayout(LineComment, s[1..]);
          SameLayoutDrop(s[0], Strip(LineComment, s[1..]), s[1..]);
        }
      } else if m == BlockComment {
        if StartsWith(s, STAR, SLASH) {
          StripKeepsLayout(Code, s[2..]);
          SameLayoutTwoBlanks(s, Strip(Code, s[2..]));
        } else {
          StripKeepsLayout(BlockComment, s[1..]);
          SameLayoutStep(if IsNewline(s[0]) then s[0] else SPACE, s[0], Strip(BlockComment, s[1..]), s[1..]);
        }
      } else {
        if m == Code && StartsWith(s, SLASH, SLASH) {
          StripKeepsLayout(LineComment, s[2..]);
          assert s[1..] == [s[1]] + s[2..];
          SameLayoutDrop(s[1], Strip(LineComment, s[2..]), s[2..]);
          SameLayoutDrop(s[0], Strip(LineComment, s[2..]), s[1..]);
        } else if m == Code && StartsWith(s, SLASH, STAR) {
          StripKeepsLayout(BlockComment, s[2..]);
          SameLayoutTwoBlanks(s, Strip(BlockComment, s[2..]));
        } else {
          StripKeepsLayout(After(m, s[0]), s[1..]);
          SameLayoutStep(s[0], s[0], Strip(After(m, s[0]), s[1..]), s[1..]);
        }
      }
    }
  }

  lemma SameLayoutTwoBlanks(s: seq<byte>, out: seq<byte>)
    requires |s| >= 2 && !IsNewline(s[0]) && !IsNewline(s[1])
    requires SameLayout(out, s[2..])
    ensures SameLayout([SPACE, SPACE] + out, s)
  {
    SameLayoutStep(SPACE, s[1], out, s[2..]);
    SameLayoutStep(SPACE, s[0], [SPACE] + out, [s[1]] + s[2..]);
    assert [SPACE] + ([SPACE] + out) == [SPACE, SPACE] + out;
    assert [s[0]] + ([s[1]] + s[2..]) == s;
  }

  // ---------------------------------------------------------------- meaning

  /** A byte that matters to a JSON decoder, with where it stands and how it is lexed. */
  datatype Cell = Cell(line: nat, col: nat, value: byte, mode: Mode)

  /** The position after byte b. */
  function NextLine(b: byte, line: nat): nat { if IsNewline(b) then line + 1 else line }
  function NextCol(b: byte, col: nat): nat { if IsNewline(b) then 0 else col + 1 }

  /** Every byte of s outside comments, except blanks between tokens, with its position.
      The mode tells string-literal bytes from code bytes. */
  function Cells(m: Mode, s: seq<byte>, line: nat, col: nat): seq<Cell>
    decreases s
  {
    if s == [] then []
    else if m == LineComment then
      Cells(if IsNewline(s[0]) then Code else LineComment, s[1..], NextLine(s[0], line), NextCol(s[0], col))
    else if m == BlockComment then
      if StartsWith(s, STAR, SLASH) then Cells(Code, s[2..], line, col + 2)
      else Cells(BlockComment, s[1..], NextLine(s[0], line), NextCol(s[0], col))
    else
      if m == Code && StartsWith(s, SLASH, SLASH) then Cells(LineComment, s[2..], line, col + 2)
      else if m == Code && StartsWith(s, SLASH, STAR) then Cells(BlockComment, s[2..], line, col + 2)
      else (if m == Code && (s[0] == SPACE || IsNewline(s[0])) then [] else [Cell(line, col, s[0], m)])
           + Cells(After(m, s[0]), s[1..], NextLine(s[0], line), NextCol(s[0], col))
  }

  /** No comment starts in s when it is read in mode m. */
  predicate CommentFree(m: Mode, s: seq<byte>)
    decreases s
  {
    if s == [] then m != LineComment && m != BlockComment
    else if m == LineComment then false
    else if m == BlockComment then false
    else
      && !(m == Code && (StartsWith(s, SLASH, SLASH) || StartsWith(s, SLASH, STAR)))
      && CommentFree(After(m, s[0]), s[1..])
  }

  /** The mode a reader of the output is in where a reader of the input is in mode m. */
  function OutputMode(m: Mode): Mode {
    if m == LineComment || m == BlockComment then Code else m
  }

  /** A byte the lexer keeps as code never becomes a comment opener with its new neighbour. */
  lemma KeptSlashIsSafe(s: seq<byte>)
    requires s != [] && s[0] == SLASH
    requires !StartsWith(s, SLASH, SLASH) && !StartsWith(s, SLASH, STAR)
    ensures var out := [SLASH] + Strip(Code, s[1..]);
            !StartsWith(out, SLASH, SLASH) && !StartsWith(out, SLASH, STAR)
  {
    if |s| > 1 {
      assert Strip(Code, s[1..]) == [s[1]] + Strip(After(Code, s[1]), s[1..][1..]);
    }
  }

  /** The output has no comment opener outside a string literal. */
  lemma {:induction false} StripLeavesNoComment(m: Mode, s: seq<byte>)
    ensures CommentFree(OutputMode(m), Strip(m, s))
    decreases s
  {
    if s != [] {
      if m == LineComment {
        if IsNewline(s[0]) {
          StripLeavesNoComment(Code, s[1..]);
          KeepsCommentFree(Code, s[0], Strip(Code, s[1..]));
        } else {
          StripLeavesNoComment(LineComment, s[1..]);
        }
      } else if m == BlockComment {
        if StartsWith(s, STAR, SLASH) {
          StripLeavesNoComment(Code, s[2..]);
          BlanksKeepCommentFree(Strip(Code, s[2..]));
        } else {
          StripLeavesNoComment(BlockComment, s[1..]);
          KeepsCommentFree(Code, if IsNewline(s[0]) then s[0] else SPACE, Strip(BlockComment, s[1..]));
        }
      } else {
        if m == Code && StartsWith(s, SLASH, SLASH) {
          StripLeavesNoComment(LineComment, s[2..]);
        } else if m == Code && StartsWith(s, SLASH, STAR) {
          StripLeavesNoComment(BlockComment, s[2..]);
          BlanksKeepCommentFree(Strip(BlockComment, s[2..]));
        } else {
          StripLeavesNoComment(After(m, s[0]), s[1..]);
          if m == Code && s[0] == SLASH {
            KeptSlashIsSafe(s);
          }
          KeepsCommentFree(m, s[0], Strip(After(m, s[0]), s[1..]));
        }
      }
    }
  }

  lemma KeepsCommentFree(m: Mode, b: byte, out: seq<byte>)
    requires !InComment(m)
    requires CommentFree(After(m, b), out)
    requires m == Code ==> !StartsWith([b] + out, SLASH, SLASH) && !StartsWith([b] + out, SLASH, STAR)
    ensures CommentFree(m, [b] + out)
  {
    assert ([b] + out)[1..] == out;
  }

  lemma BlanksKeepCommentFree(out: seq<byte>)
    requires CommentFree(Code, out)
    ensures CommentFree(Code, [SPACE, SPACE] + out)
  {
    KeepsCommentFree(Code, SPACE, out);
    KeepsCommentFree(Code, SPACE, [SPACE] + out);
    assert [SPACE] + ([SPACE] + out) == [SPACE, SPACE] + out;
  }

  /** A text without comments is left alone. */
  lemma {:induction false} CommentFreeIsUnchanged(m: Mode, s: seq<byte>)
    requires CommentFree(m, s)
    ensures Strip(m, s) == s
    decreases s
  {
    if s != [] {
      CommentFreeIsUnchanged(After(m, s[0]), s[1..]);
    }
  }

  /** Stripping twice is stripping once; and a text is a fixed point exactly when it is
      free of comments. */
  lemma StripIsIdempotent(s: seq<byte>)
    ensures Strip(Code, Strip(Code, s)) == Strip(Code, s)
    ensures Strip(Code, s) == s <==> CommentFree(Code, s)
  {
    StripLeavesNoComment(Code, s);
    CommentFreeIsUnchanged(Code, Strip(Code, s));
    if CommentFree(Code, s) {
      CommentFreeIsUnchanged(Code, s);
    }
  }

  /** Stripping changes nothing a JSON decoder can see: the bytes of string literals and
      of every token are the same, in the same order, at the same line and column, and
      lexed the same way, when the output is read from the start. */
  lemma {:induction false} StripKeepsCells(m: Mode, s: seq<byte>, line: nat, col: nat, outCol: nat)
    requires m != LineComment ==> outCol == col
    ensures Cells(OutputMode(m), Strip(m, s), line, outCol) == Cells(m, s, line, col)
    decreases s
  {
    if s != [] {
      if m == LineComment {
        if IsNewline(s[0]) {
          StripKeepsCells(Code, s[1..], line + 1, 0, 0);
          CellsOfBlank(s[0], Strip(Code, s[1..]), line, outCol);
        } else {
          StripKeepsCells(LineComment, s[1..], line, col + 1, outCol);
        }
      } else if m == BlockComment {
        if StartsWith(s, STAR, SLASH) {
          StripKeepsCells(Code, s[2..], line, col + 2, col + 2);
          CellsOfTwoBlanks(Strip(Code, s[2..]), line, col);
        } else {
          var b := if IsNewline(s[0]) then s[0] else SPACE;
          StripKeepsCells(BlockComment, s[1..], NextLine(b, line), NextCol(b, col), NextCol(b, col));
          CellsOfBlank(b, Strip(BlockComment, s[1..]), line, col);
        }
      } else {
        if m == Code && StartsWith(s, SLASH, SLASH) {
          StripKeepsCells(LineComment, s[2..], line, col + 2, col);
        } else if m == Code && StartsWith(s, SLASH, STAR) {
          StripKeepsCells(BlockComment, s[2..], line, col + 2, col + 2);
          CellsOfTwoBlanks(Strip(BlockComment, s[2..]), line, col);
        } else {
          var m', line', col' := After(m, s[0]), NextLine(s[0], line), NextCol(s[0], col);
          StripKeepsCells(m', s[1..], line', col', col');
          if m == Code && s[0] == SLASH {
            KeptSlashIsSafe(s);
          }
          assert ([s[0]] + Strip(m', s[1..]))[1..] == Strip(m', s[1..]);
        }
      }
    }
  }

  lemma CellsOfBlank(b: byte, out: seq<byte>, line: nat, col: nat)
    requires b == SPACE || IsNewline(b)
    ensures Cells(Code, [b] + out, line, col) == Cells(Code, out, NextLine(b, line), NextCol(b, col))
  {
    assert ([b] + out)[1..] == out;
  }

  lemma CellsOfTwoBlanks(out: seq<byte>, line: nat, col: nat)
    ensures Cells(Code, [SPACE, SPACE] + out, line, col) == Cells(Code, out, line, col + 2)
  {
    CellsOfBlank(SPACE, out, line, col + 1);
    CellsOfBlank(SPACE, [SPACE] + out, line, col);
    assert [SPACE] + ([SPACE] + out) == [SPACE, SPACE] + out;
  }

  /** The three promises of the package for a whole text. */
  lemma StripPreservesMeaning(s: seq<byte>)
    ensures Cells(Code, Strip(Code, s), 0, 0) == Cells(Code, s, 0, 0)
    ensures SameLayout(Strip(Code, s), s)
    ensures CommentFree(Code, Strip(Code, s))
  {
    StripKeepsCells(Code, s, 0, 0, 0);
    StripKeepsLayout(Code, s);
    StripLeavesNoComment(Code, s);
  }
}
