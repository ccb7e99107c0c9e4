/** What comment stripping does to JSON with comments, told from how such a text is written:
    bytes, string literals, line comments and block comments, one after the other
    (internal/jsonc/jsonc.go). */
module JsonPieces {
  import opened Wrappers
  import opened Jsonc

  /** What a string literal is made of: a byte that is neither quote nor backslash, or any byte
      behind a backslash. */
  datatype Unit = Byte(b: byte) | Escape(b: byte)

  datatype Piece = Plain(b: byte) | Quoted(units: seq<Unit>) | Line(text: seq<byte>) | Block(text: seq<byte>)

  predicate IsUnit(u: Unit) { u.Byte? ==> u.b != 34 && u.b != 92 }

  function Inside(units: seq<Unit>): seq<byte> {
    if units == [] then [] else (if units[0].Byte? then [units[0].b] else [92, units[0].b]) + Inside(units[1..])
  }

  predicate AreUnits(units: seq<Unit>) { forall u :: u in units ==> IsUnit(u) }

  predicate OnOneLine(text: seq<byte>) { forall b :: b in text ==> b != 10 && b != 13 }

  predicate Unclosed(text: seq<byte>) { forall i :: 0 <= i < |text| - 1 ==> !(text[i] == 42 && text[i + 1] == 47) }

  function PieceText(p: Piece): seq<byte> {
    match p
    case Plain(b) => [b]
    case Quoted(units) => [34] + Inside(units) + [34]
    case Line(text) => [47, 47] + text
    case Block(text) => [47, 42] + text + [42, 47]
  }

  /** A blank for every byte, but newlines stay. */
  function Blanks(text: seq<byte>): seq<byte> {
    seq(|text|, i requires 0 <= i < |text| => if text[i] == 10 || text[i] == 13 then text[i] else 32)
  }

  /** What is left of a piece: all of it, or nothing of a line comment, or blanks for a block
      comment. */
  function PieceImage(p: Piece): seq<byte> {
    match p
    case Line(_) => []
    case Block(text) => [32, 32] + Blanks(text) + [32, 32]
    case _ => PieceText(p)
  }

  function Text(ps: seq<Piece>): seq<byte> {
    if ps == [] then [] else PieceText(ps[0]) + Text(ps[1..])
  }

  function Image(ps: seq<Piece>): seq<byte> {
    if ps == [] then [] else PieceImage(ps[0]) + Image(ps[1..])
  }

  /** A piece is read as such before the rest of the text. */
  predicate Fits(p: Piece, rest: seq<byte>) {
    match p
    case Plain(b) => b != 34 && !(b == 47 && rest != [] && (rest[0] == 47 || rest[0] == 42))
    case Quoted(units) => AreUnits(units)
    case Line(text) => OnOneLine(text) && (rest == [] || rest[0] == 10 || rest[0] == 13)
    case Block(text) => Unclosed(text)
  }

  predicate AllFit(ps: seq<Piece>, tail: seq<byte>) {
    ps == [] || (Fits(ps[0], Text(ps[1..]) + tail) && AllFit(ps[1..], tail))
  }

  /** The end of a text that breaks off within a literal or a block comment, and what is left of
      it. */
  datatype Tail = NoTail | OpenLiteral(units: seq<Unit>, backslash: bool) | OpenBlock(text: seq<byte>)

  function TailText(t: Tail): seq<byte> {
    match t
    case NoTail => []
    case OpenLiteral(units, backslash) => [34] + Inside(units) + if backslash then [92] else []
    case OpenBlock(text) => [47, 42] + text
  }

  function TailImage(t: Tail): seq<byte> {
    if t.OpenBlock? then [32, 32] + Blanks(t.text) else TailText(t)
  }

  predicate TailFits(t: Tail) {
    match t
    case NoTail => true
    case OpenLiteral(units, _) => AreUnits(units)
    case OpenBlock(text) => Unclosed(text)
  }

  // ---------------------------------------------------------------- literals

  lemma {:induction false} InsideComesThrough(units: seq<Unit>, rest: seq<byte>)
    requires AreUnits(units)
    ensures Strip(Mode.Literal, Inside(units) + rest) == Inside(units) + Strip(Mode.Literal, rest)
    decreases units
  {
    if units == [] {
      assert Inside(units) + rest == rest;
    } else {
      var more := Inside(units[1..]) + rest;
      InsideComesThrough(units[1..], rest);
      assert units[0] in units;
      if units[0].Byte? {
        assert Inside(units) + rest == [units[0].b] + more;
      } else {
        assert Inside(units) + rest == [92, units[0].b] + more;
        assert ([92, units[0].b] + more)[1..] == [units[0].b] + more;
        assert ([units[0].b] + more)[1..] == more;
      }
    }
  }

  /** A string literal comes through byte for byte, whatever follows. */
  lemma LiteralComesThrough(units: seq<Unit>, rest: seq<byte>)
    requires AreUnits(units)
    ensures var literal := [34] + Inside(units) + [34]; Strip(Code, literal + rest) == literal + Strip(Code, rest)
  {
    var literal := [34] + Inside(units) + [34];
    assert literal + rest == [34] + (Inside(units) + ([34] + rest));
    assert (literal + rest)[1..] == Inside(units) + ([34] + rest);
    InsideComesThrough(units, [34] + rest);
    assert ([34] + rest)[1..] == rest;
  }

  /** So does one that is not terminated, also within an escape. */
  lemma OpenLiteralComesThrough(units: seq<Unit>, backslash: bool)
    requires AreUnits(units)
    ensures var text := [34] + Inside(units) + if backslash then [92] else []; Strip(Code, text) == text
  {
    var last: seq<byte> := if backslash then [92] else [];
    var text := [34] + Inside(units) + last;
    assert text[1..] == Inside(units) + last;
    InsideComesThrough(units, last);
    assert Strip(Mode.Literal, last) == last;
  }

  // ---------------------------------------------------------------- comments

  lemma {:induction false} LineVanishes(text: seq<byte>, rest: seq<byte>)
    requires OnOneLine(text) && (rest == [] || rest[0] == 10 || rest[0] == 13)
    ensures Strip(LineComment, text + rest) == Strip(Code, rest)
    decreases text
  {
    if text == [] {
      assert text + rest == rest;
    } else {
      assert text[0] in text && (text + rest)[1..] == text[1..] + rest;
      assert forall b :: b in text[1..] ==> b in text;
      LineVanishes(text[1..], rest);
    }
  }

  lemma {:induction false} BlockIsBlanked(text: seq<byte>, closed: bool, rest: seq<byte>)
    requires Unclosed(text) && (!closed ==> rest == [])
    ensures Strip(BlockComment, text + (if closed then [42, 47] else []) + rest)
            == Blanks(text) + (if closed then [32, 32] else []) + Strip(Code, rest)
    decreases text
  {
    var all := text + (if closed then [42, 47] else []) + rest;
    if text == [] {
      if closed {
        assert all[2..] == rest;
      }
    } else {
      assert all[1..] == text[1..] + (if closed then [42, 47] else []) + rest;
      BlockIsBlanked(text[1..], closed, rest);
      assert Blanks(text) == [if text[0] == 10 || text[0] == 13 then text[0] else 32] + Blanks(text[1..]);
      assert !StartsWith(all, STAR, SLASH);
    }
  }

  // ---------------------------------------------------------------- whole texts

  lemma PieceIsStripped(p: Piece, rest: seq<byte>)
    requires Fits(p, rest)
    ensures Strip(Code, PieceText(p) + rest) == PieceImage(p) + Strip(Code, rest)
  {
    match p
    case Plain(b) =>
      assert ([b] + rest)[1..] == rest;
    case Quoted(units) => LiteralComesThrough(units, rest);
    case Line(text) =>
      assert (PieceText(p) + rest)[2..] == text + rest;
      LineVanishes(text, rest);
    case Block(text) =>
      assert (PieceText(p) + rest)[2..] == text + [42, 47] + rest;
      BlockIsBlanked(text, true, rest);
  }

  lemma TailIsStripped(t: Tail)
    requires TailFits(t)
    ensures Strip(Code, TailText(t)) == TailImage(t)
  {
    match t
    case NoTail =>
    case OpenLiteral(units, backslash) => OpenLiteralComesThrough(units, backslash);
    case OpenBlock(text) =>
      assert TailText(t)[2..] == text + [] + [];
      BlockIsBlanked(text, false, []);
  }

  /** Stripping works piece by piece. */
  lemma {:induction false} PiecesAreStripped(ps: seq<Piece>, t: Tail)
    requires AllFit(ps, TailText(t)) && TailFits(t)
    ensures Strip(Code, Text(ps) + TailText(t)) == Image(ps) + TailImage(t)
    decreases ps
  {
    hide Strip, PieceText, PieceImage, TailText, TailImage, Fits, TailFits;
    if ps == [] {
      TailIsStripped(t);
      assert Text(ps) + TailText(t) == TailText(t);
    } else {
      var rest := Text(ps[1..]) + TailText(t);
      assert Text(ps) + TailText(t) == PieceText(ps[0]) + rest;
      PieceIsStripped(ps[0], rest);
      PiecesAreStripped(ps[1..], t);
      assert PieceImage(ps[0]) + (Image(ps[1..]) + TailImage(t)) == Image(ps) + TailImage(t);
    }
  }

  // ---------------------------------------------------------------- every text is written so

  lemma {:induction false} ReadLiteral(s: seq<byte>) returns (units: seq<Unit>, closed: bool, backslash: bool,
                                                              rest: seq<byte>)
    ensures AreUnits(units) && (!closed ==> rest == []) && (closed ==> !backslash)
    ensures s == Inside(units) + (if closed then [34] else if backslash then [92] else []) + rest
    decreases s
  {
    if s == [] {
      units, closed, backslash, rest := [], false, false, [];
    } else if s[0] == 34 {
      units, closed, backslash, rest := [], true, false, s[1..];
    } else if s == [92] {
      units, closed, backslash, rest := [], false, true, [];
    } else {
      var n := if s[0] == 92 then 2 else 1;
      var more;
      more, closed, backslash, rest := ReadLiteral(s[n..]);
      var u := if s[0] == 92 then Escape(s[1]) else Byte(s[0]);
      units := [u] + more;
      assert units[1..] == more;
      assert s == s[..n] + s[n..];
    }
  }

  lemma {:induction false} ReadLine(s: seq<byte>) returns (text: seq<byte>, rest: seq<byte>)
    ensures s == text + rest && OnOneLine(text) && (rest == [] || rest[0] == 10 || rest[0] == 13)
    decreases s
  {
    if s == [] || s[0] == 10 || s[0] == 13 {
      text, rest := [], s;
    } else {
      text, rest := ReadLine(s[1..]);
      text := [s[0]] + text;
    }
  }

  lemma {:induction false} ReadBlock(s: seq<byte>) returns (text: seq<byte>, closed: bool, rest: seq<byte>)
    ensures s == text + (if closed then [42, 47] else []) + rest && Unclosed(text) && (!closed ==> rest == [])
    ensures text != [] ==> s != [] && s[0] == text[0]
    decreases s
  {
    if s == [] {
      text, closed, rest := [], false, [];
    } else if StartsWith(s, STAR, SLASH) {
      text, closed, rest := [], true, s[2..];
    } else {
      text, closed, rest := ReadBlock(s[1..]);
      assert Unclosed([s[0]] + text);
      text := [s[0]] + text;
    }
  }

  /** What a text begins with: a piece before the rest of it, or a tail that it consists of. */
  lemma ReadPiece(s: seq<byte>) returns (p: Option<Piece>, t: Tail, rest: seq<byte>)
    requires s != []
    ensures p.Some? ==> s == PieceText(p.value) + rest && Fits(p.value, rest) && |rest| < |s|
    ensures p.None? ==> s == TailText(t) && TailFits(t)
  {
    hide Unclosed, OnOneLine, AreUnits, Inside;
    p, t, rest := Some(Plain(s[0])), NoTail, s[1..];
    if s[0] == 34 {
      var units, closed, backslash;
      units, closed, backslash, rest := ReadLiteral(s[1..]);
      p := if closed then Some(Quoted(units)) else None;
      t := OpenLiteral(units, backslash);
    } else if StartsWith(s, SLASH, SLASH) {
      var text;
      text, rest := ReadLine(s[2..]);
      p := Some(Line(text));
    } else if StartsWith(s, SLASH, STAR) {
      var text, closed;
      text, closed, rest := ReadBlock(s[2..]);
      p := if closed then Some(Block(text)) else None;
      t := OpenBlock(text);
    }
  }

  /** Every text is pieces and a tail. */
  lemma {:induction false} ReadPieces(s: seq<byte>) returns (ps: seq<Piece>, t: Tail)
    ensures s == Text(ps) + TailText(t) && AllFit(ps, TailText(t)) && TailFits(t)
    decreases |s|
  {
    ps, t := [], NoTail;
    if s != [] {
      hide PieceText, TailText, Fits, TailFits;
      var p, rest;
      p, t, rest := ReadPiece(s);
      if p.Some? {
        ps, t := ReadPieces(rest);
        PieceFirst(p.value, ps, t, rest);
        ps := [p.value] + ps;
      }
    }
  }

  lemma PieceFirst(p: Piece, ps: seq<Piece>, t: Tail, rest: seq<byte>)
    requires rest == Text(ps) + TailText(t) && AllFit(ps, TailText(t)) && Fits(p, rest)
    ensures PieceText(p) + rest == Text([p] + ps) + TailText(t) && AllFit([p] + ps, TailText(t))
  {
    assert ([p] + ps)[1..] == ps;
  }

  /** What is left of any text: it is made of pieces and perhaps a tail, and of these exactly the
      comments are blanked out. */
  lemma StripExactly(s: seq<byte>)
    ensures exists ps, t :: s == Text(ps) + TailText(t) && AllFit(ps, TailText(t)) && TailFits(t)
                            && Strip(Code, s) == Image(ps) + TailImage(t)
  {
    var ps, t := ReadPieces(s);
    PiecesAreStripped(ps, t);
  }
}
