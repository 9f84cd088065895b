/** How the word splitter reads every kind of word a command line can spell: bare and
    escaped characters and both kinds of quotes, in any mixture. */
module WordShapes {
  import opened Common
  import opened ShellWords

  /** One character of a word and whether a backslash stands before it. */
  datatype Spelled = Spelled(ch: char, escaped: bool)

  /** A piece of a word: a character outside quotes, or a quoted stretch. */
  datatype Piece = Bare(one: Spelled) | Quoted(quote: char, inside: seq<Spelled>)

  predicate IsQuote(ch: char) {
    ch == '\'' || ch == '"'
  }

  /** Outside quotes whatever would split, quote or escape has a backslash before it;
      inside quotes only the backslash and the quote itself need one. */
  predicate WellSpelled(p: Piece) {
    match p
    case Bare(s) => s.escaped || !(s.ch == '\\' || IsQuote(s.ch) || IsWhitespace(s.ch))
    case Quoted(q, inside) =>
      IsQuote(q) && forall i :: 0 <= i < |inside| ==> inside[i].escaped || (inside[i].ch != '\\' && inside[i].ch != q)
  }

  function SpellOne(s: Spelled): string {
    if s.escaped then ['\\', s.ch] else [s.ch]
  }

  function SpellAll(inside: seq<Spelled>): string {
    if inside == [] then [] else SpellOne(inside[0]) + SpellAll(inside[1..])
  }

  function SpellPiece(p: Piece): string {
    match p
    case Bare(s) => SpellOne(s)
    case Quoted(q, inside) => [q] + (SpellAll(inside) + [q])
  }

  function SpellWord(pieces: seq<Piece>): string {
    if pieces == [] then [] else SpellPiece(pieces[0]) + SpellWord(pieces[1..])
  }

  function Chars(inside: seq<Spelled>): string {
    if inside == [] then [] else [inside[0].ch] + Chars(inside[1..])
  }

  function PieceMeaning(p: Piece): string {
    match p
    case Bare(s) => [s.ch]
    case Quoted(_, inside) => Chars(inside)
  }

  /** What the word means: its characters without quotes and backslashes. */
  function Meaning(pieces: seq<Piece>): string {
    if pieces == [] then [] else PieceMeaning(pieces[0]) + Meaning(pieces[1..])
  }

  /** A word and the blanks after it. */
  datatype Spaced = Spaced(pieces: seq<Piece>, blanks: string)

  predicate WellSpaced(words: seq<Spaced>) {
    && (forall i, j :: 0 <= i < |words| && 0 <= j < |words[i].pieces| ==> WellSpelled(words[i].pieces[j]))
    && (forall i :: 0 <= i < |words| ==> IsBlank(words[i].blanks))
    && (forall i :: 0 <= i < |words| - 1 ==> words[i].blanks != "")
  }

  function SpellLine(words: seq<Spaced>): string {
    if words == [] then [] else SpellWord(words[0].pieces) + (words[0].blanks + SpellLine(words[1..]))
  }

  /** The meanings, without the words that mean nothing, such as a pair of quotes. */
  function Meanings(words: seq<Spaced>): seq<string> {
    if words == [] then []
    else (if Meaning(words[0].pieces) == "" then [] else [Meaning(words[0].pieces)]) + Meanings(words[1..])
  }

  // ---- One word ----

  lemma ScanTwo(l: Lexer, a: char, b: char)
    ensures Scan(l, [a, b]) == Turn(Turn(l, a), b)
  {
    assert [a, b][1..] == [b] && [b][1..] == [];
    assert Scan(l, [a, b]) == Scan(Turn(l, a), [b]);
    assert Scan(Turn(l, a), [b]) == Scan(Turn(Turn(l, a), b), []);
  }

  lemma ScanOne(l: Lexer, a: char)
    ensures Scan(l, [a]) == Turn(l, a)
  {
    assert [a][1..] == [];
    assert Scan(l, [a]) == Scan(Turn(l, a), []);
  }

  /** A spelled character adds itself to the word, where it does not need its backslash. */
  lemma ScanSpelled(l: Lexer, s: Spelled)
    requires !l.escape
    requires s.escaped || (s.ch != '\\' && (l.quote.Some? ==> s.ch != l.quote.value)
                           && (l.quote.None? ==> !IsQuote(s.ch) && !IsWhitespace(s.ch)))
    ensures Scan(l, SpellOne(s)) == l.(current := l.current + [s.ch])
  {
    hide Scan;
    if s.escaped {
      ScanTwo(l, '\\', s.ch);
    } else {
      ScanOne(l, s.ch);
    }
  }

  lemma {:induction false} ScanInside(l: Lexer, inside: seq<Spelled>, q: char)
    requires !l.escape && l.quote == Some(q)
    requires forall i :: 0 <= i < |inside| ==> inside[i].escaped || (inside[i].ch != '\\' && inside[i].ch != q)
    ensures Scan(l, SpellAll(inside)) == l.(current := l.current + Chars(inside))
    decreases |inside|
  {
    hide Turn, SpellOne;
    if inside == [] {
      assert l.current + [] == l.current;
    } else {
      var next := l.(current := l.current + [inside[0].ch]);
      ScanSpelled(l, inside[0]);
      ScanConcat(l, SpellOne(inside[0]), SpellAll(inside[1..]));
      ScanInside(next, inside[1..], q);
      assert next.current + Chars(inside[1..]) == l.current + Chars(inside);
    }
  }

  lemma ScanPiece(l: Lexer, p: Piece)
    requires !l.escape && l.quote.None? && WellSpelled(p)
    ensures Scan(l, SpellPiece(p)) == l.(current := l.current + PieceMeaning(p))
  {
    match p
    case Bare(s) =>
      ScanSpelled(l, s);
    case Quoted(q, inside) =>
      var quoted := l.(quote := Some(q));
      var filled := quoted.(current := l.current + Chars(inside));
      ScanOpening(l, q, SpellAll(inside) + [q]);
      ScanConcat(quoted, SpellAll(inside), [q]);
      ScanInside(quoted, inside, q);
      ScanOne(filled, q);
  }

  lemma ScanOpening(l: Lexer, q: char, rest: string)
    requires !l.escape && l.quote.None? && IsQuote(q)
    ensures Scan(l, [q] + rest) == Scan(l.(quote := Some(q)), rest)
  {
    assert ([q] + rest)[0] == q && ([q] + rest)[1..] == rest;
  }

  lemma {:induction false} ScanWord(l: Lexer, pieces: seq<Piece>)
    requires !l.escape && l.quote.None? && forall j :: 0 <= j < |pieces| ==> WellSpelled(pieces[j])
    ensures Scan(l, SpellWord(pieces)) == l.(current := l.current + Meaning(pieces))
    decreases |pieces|
  {
    hide Scan, Turn, SpellPiece, WellSpelled, PieceMeaning;
    if pieces == [] {
      ScanNothing(l);
      assert l.current + [] == l.current;
    } else {
      var head, rest := PieceMeaning(pieces[0]), Meaning(pieces[1..]);
      ScanPiece(l, pieces[0]);
      ScanConcat(l, SpellPiece(pieces[0]), SpellWord(pieces[1..]));
      ScanWord(l.(current := l.current + head), pieces[1..]);
      assert (l.current + head) + rest == l.current + (head + rest);
    }
  }

  // ---- A whole line ----

  /** Blanks end the word, if there is one. */
  lemma {:induction false} ScanBlanks(l: Lexer, blanks: string)
    requires !l.escape && l.quote.None? && IsBlank(blanks)
    ensures Scan(l, blanks) ==
      if blanks == "" || l.current == "" then l else l.(words := l.words + [l.current], current := [])
    decreases |blanks|
  {
    if blanks != "" {
      var next := if l.current == "" then l else l.(words := l.words + [l.current], current := []);
      assert IsWhitespace(blanks[0]);
      BlankIsPlain(blanks[0]);
      assert Turn(l, blanks[0]) == next;
      assert Scan(l, blanks) == Scan(next, blanks[1..]);
      ScanBlanks(next, blanks[1..]);
    }
  }

  lemma BlankIsPlain(ch: char)
    requires IsWhitespace(ch)
    ensures ch != '\\' && !IsQuote(ch)
  {
  }

  lemma ScanSpaced(before: seq<string>, word: Spaced, rest: string)
    requires IsBlank(word.blanks) && forall j :: 0 <= j < |word.pieces| ==> WellSpelled(word.pieces[j])
    ensures
      var meaning := Meaning(word.pieces);
      Scan(Lexer(before, [], None, false), SpellWord(word.pieces) + (word.blanks + rest)) ==
      if word.blanks == "" || meaning == "" then Scan(Lexer(before, meaning, None, false), rest)
      else Scan(Lexer(before + [meaning], [], None, false), rest)
  {
    hide Scan, Turn, SpellWord, Meaning, WellSpelled, IsBlank;
    var l := Lexer(before, [], None, false);
    var meaning := Meaning(word.pieces);
    assert [] + meaning == meaning;
    ScanConcat(l, SpellWord(word.pieces), word.blanks + rest);
    ScanWord(l, word.pieces);
    ScanConcat(l.(current := meaning), word.blanks, rest);
    ScanBlanks(l.(current := meaning), word.blanks);
  }

  /** Splitting any well-spelled line gives the meanings of its words, in order, without
      those that mean nothing. */
  lemma {:induction false} ScanLine(before: seq<string>, words: seq<Spaced>)
    requires WellSpaced(words)
    ensures Finish(Scan(Lexer(before, [], None, false), SpellLine(words))) == before + Meanings(words)
    decreases |words|
  {
    hide Turn, Scan, SpellWord, Meaning, WellSpelled, IsBlank, WellSpaced;
    if words == [] {
      ScanNothing(Lexer(before, [], None, false));
      assert before + [] == before;
    } else {
      var first, rest := words[0], words[1..];
      var meaning := Meaning(first.pieces);
      FirstIsSpaced(words);
      ScanSpaced(before, first, SpellLine(rest));
      if rest == [] {
        ScanNothing(Lexer(before, meaning, None, false));
        ScanNothing(Lexer(before + [meaning], [], None, false));
        assert before + (Meanings(words)) == if meaning == "" then before else before + [meaning];
      } else {
        var after := if meaning == "" then before else before + [meaning];
        ScanLine(after, rest);
        assert after + Meanings(rest) == before + Meanings(words);
      }
    }
  }

  lemma FirstIsSpaced(words: seq<Spaced>)
    requires WellSpaced(words) && words != []
    ensures IsBlank(words[0].blanks) && WellSpaced(words[1..]) && (|words| > 1 ==> words[0].blanks != "")
    ensures forall j :: 0 <= j < |words[0].pieces| ==> WellSpelled(words[0].pieces[j])
  {
    var rest := words[1..];
    assert forall i :: 0 <= i < |rest| ==> rest[i] == words[i + 1];
  }

  /** The splitter reads every well-spelled line as its words' meanings. */
  lemma LineReadsBack(words: seq<Spaced>)
    requires WellSpaced(words)
    ensures Words(SpellLine(words)) == Meanings(words)
  {
    ScanLine([], words);
    assert [] + Meanings(words) == Meanings(words);
  }

  // ---- Backslashes everywhere ----

  function Escaped(arg: string): seq<Piece> {
    seq(|arg|, k requires 0 <= k < |arg| => Bare(Spelled(arg[k], true)))
  }

  lemma {:induction false} EscapedMeans(arg: string)
    ensures Meaning(Escaped(arg)) == arg
  {
    if arg != "" {
      assert Escaped(arg)[1..] == Escaped(arg[1..]);
      EscapedMeans(arg[1..]);
      assert arg == [arg[0]] + arg[1..];
    }
  }

  /** So with a backslash before every character all nonempty arguments come back, the
      ones with backslashes included. */
  lemma {:induction false} EscapedArgumentsReadBack(args: seq<string>)
    requires forall i :: 0 <= i < |args| ==> args[i] != ""
    ensures
      var line := seq(|args|, k requires 0 <= k < |args| => Spaced(Escaped(args[k]), " "));
      Words(SpellLine(line)) == args
  {
    var line := seq(|args|, k requires 0 <= k < |args| => Spaced(Escaped(args[k]), " "));
    assert IsBlank(" ");
    assert WellSpaced(line);
    LineReadsBack(line);
    EscapedMeanings(args);
  }

  lemma {:induction false} EscapedMeanings(args: seq<string>)
    requires forall i :: 0 <= i < |args| ==> args[i] != ""
    ensures Meanings(seq(|args|, k requires 0 <= k < |args| => Spaced(Escaped(args[k]), " "))) == args
  {
    if args != [] {
      var line := seq(|args|, k requires 0 <= k < |args| => Spaced(Escaped(args[k]), " "));
      var rest := args[1..];
      assert line[1..] == seq(|rest|, k requires 0 <= k < |rest| => Spaced(Escaped(rest[k]), " "));
      EscapedMeanings(rest);
      EscapedMeans(args[0]);
      assert args == [args[0]] + rest;
    }
  }
}
