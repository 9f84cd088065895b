/** Shell quoting of command lines and the word splitter that reads them back. */
module ShellWords {
  import opened Common

  // ---- Quoting ----

  /** `value.replace('\'', "'\"'\"'")`. */
  function EscapeQuotes(value: string): string {
    if value == [] then []
    else (if value[0] == '\'' then "'\"'\"'" else [value[0]]) + EscapeQuotes(value[1..])
  }

  function Quote(value: string): string {
    "'" + EscapeQuotes(value) + "'"
  }

  function Join(args: seq<string>): string {
    if args == [] then [] else if |args| == 1 then Quote(args[0]) else Quote(args[0]) + " " + Join(args[1..])
  }

  // ---- Splitting ----

  datatype Lexer = Lexer(words: seq<string>, current: string, quote: Option<char>, escape: bool)

  /** One turn of the splitter's loop. */
  function Turn(l: Lexer, ch: char): Lexer {
    if l.escape then l.(current := l.current + [ch], escape := false)
    else if ch == '\\' then l.(escape := true)
    else match l.quote
      case Some(q) => if ch == q then l.(quote := None) else l.(current := l.current + [ch])
      case None =>
        if ch == '\'' || ch == '"' then l.(quote := Some(ch))
        else if IsWhitespace(ch) then
          if l.current == [] then l else l.(words := l.words + [l.current], current := [])
        else l.(current := l.current + [ch])
  }

  function Scan(l: Lexer, text: string): Lexer
    decreases |text|
  {
    if text == [] then l else Scan(Turn(l, text[0]), text[1..])
  }

  function Finish(l: Lexer): seq<string> {
    if l.current == [] then l.words else l.words + [l.current]
  }

  const START := Lexer([], [], None, false)

  function Words(command: string): seq<string> {
    Finish(Scan(START, command))
  }

  /** The loop over mutable words, current word, quote and escape. */
  method SplitWords(command: string) returns (words: seq<string>)
    ensures words == Words(command)
    ensures forall i :: 0 <= i < |words| ==> words[i] != ""
  {
    words := [];
    var current: string := [];
    var quote: Option<char> := None;
    var escape := false;
    for i := 0 to |command|
      invariant Scan(Lexer(words, current, quote, escape), command[i..]) == Scan(START, command)
      invariant forall j :: 0 <= j < |words| ==> words[j] != ""
    {
      var ch := command[i];
      assert command[i..][1..] == command[i + 1..];
      if escape {
        current := current + [ch];
        escape := false;
        continue;
      }
      if ch == '\\' {
        escape := true;
        continue;
      }
      match quote
      case Some(q) =>
        if ch == q {
          quote := None;
        } else {
          current := current + [ch];
        }
      case None =>
        if ch == '\'' || ch == '"' {
          quote := Some(ch);
        } else if IsWhitespace(ch) {
          if current != [] {
            words := words + [current];
            current := [];
          }
        } else {
          current := current + [ch];
        }
    }
    if current != [] {
      words := words + [current];
    }
  }

  // ---- Round trip ----

  lemma {:induction false} ScanConcat(l: Lexer, a: string, b: string)
    ensures Scan(l, a + b) == Scan(Scan(l, a), b)
    decreases |a|
  {
    if a == [] {
      assert a + b == b;
    } else {
      assert (a + b)[1..] == a[1..] + b;
      ScanConcat(Turn(l, a[0]), a[1..], b);
    }
  }

  predicate Plain(arg: string) {
    '\\' !in arg
  }

  /** Inside single quotes the escaped text adds exactly the original text. */
  lemma {:induction false} ScanEscaped(l: Lexer, value: string)
    requires l.quote == Some('\'') && !l.escape && Plain(value)
    ensures Scan(l, EscapeQuotes(value)) == l.(current := l.current + value)
    decreases |value|
  {
    if value == [] {
      assert l.current + value == l.current;
    } else {
      var rest := value[1..];
      var next := l.(current := l.current + [value[0]]);
      if value[0] == '\'' {
        var breakText := "'\"'\"'";
        ScanConcat(l, breakText, EscapeQuotes(rest));
        ScanQuoteBreak(l);
      } else {
        ScanConcat(l, [value[0]], EscapeQuotes(rest));
        assert Scan(l, [value[0]]) == next;
      }
      ScanEscaped(next, rest);
      assert next.current + rest == l.current + value;
    }
  }

  /** Closing the quote, a double-quoted single quote, and opening it again. */
  lemma ScanQuoteBreak(l: Lexer)
    requires l.quote == Some('\'') && !l.escape
    ensures Scan(l, "'\"'\"'") == l.(current := l.current + ['\''])
  {
    var b := "'\"'\"'";
    var l1 := l.(quote := None);
    var l2 := l.(quote := Some('"'));
    var l3 := l2.(current := l.current + ['\'']);
    var l4 := l3.(quote := None);
    assert Scan(l, b) == Scan(l1, b[1..]);
    assert b[1..][1..] == b[2..];
    assert Scan(l1, b[1..]) == Scan(l2, b[2..]);
    assert b[2..][1..] == b[3..];
    assert Scan(l2, b[2..]) == Scan(l3, b[3..]);
    assert b[3..][1..] == b[4..];
    assert Scan(l3, b[3..]) == Scan(l4, b[4..]);
    assert b[4..][1..] == [];
  }

  lemma ScanQuoted(l: Lexer, value: string)
    requires l.quote.None? && !l.escape && Plain(value)
    ensures Scan(l, Quote(value)) == l.(current := l.current + value)
  {
    var inside := l.(quote := Some('\''));
    assert Quote(value) == ['\''] + (EscapeQuotes(value) + ['\'']);
    ScanConcat(l, ['\''], EscapeQuotes(value) + ['\'']);
    assert Scan(l, ['\'']) == inside;
    ScanConcat(inside, EscapeQuotes(value), ['\'']);
    ScanEscaped(inside, value);
    assert Scan(inside.(current := l.current + value), ['\'']) == l.(current := l.current + value);
  }

  ghost predicate Safe(args: seq<string>) {
    forall i :: 0 <= i < |args| ==> args[i] != "" && Plain(args[i])
  }

  /** A nonempty argument followed by more text: the word is complete at the blank. */
  lemma ScanArgument(words: seq<string>, arg: string, rest: string)
    requires arg != "" && Plain(arg)
    ensures Scan(Lexer(words, [], None, false), Quote(arg) + (" " + rest))
         == Scan(Lexer(words + [arg], [], None, false), rest)
  {
    var l := Lexer(words, [], None, false);
    var after := Lexer(words, arg, None, false);
    assert [] + arg == arg;
    ScanQuoted(l, arg);
    ScanConcat(l, Quote(arg), " " + rest);
    assert (" " + rest)[0] == ' ' && (" " + rest)[1..] == rest;
    assert Turn(after, ' ') == Lexer(words + [arg], [], None, false);
  }

  lemma {:induction false} ScanJoined(words: seq<string>, args: seq<string>)
    requires Safe(args)
    ensures Finish(Scan(Lexer(words, [], None, false), Join(args))) == words + args
    decreases |args|
  {
    hide Quote, Turn, Scan;
    if args == [] {
      ScanNothing(Lexer(words, [], None, false));
      assert words + args == words;
    } else if |args| == 1 {
      ScanQuoted(Lexer(words, [], None, false), args[0]);
      assert [] + args[0] == args[0];
      assert words + args == words + [args[0]];
    } else {
      var rest := args[1..];
      JoinMany(args);
      ScanArgument(words, args[0], Join(rest));
      ScanJoined(words + [args[0]], rest);
      assert words + args == (words + [args[0]]) + rest;
    }
  }

  lemma ScanNothing(l: Lexer)
    ensures Scan(l, []) == l
  {
  }

  lemma JoinMany(args: seq<string>)
    requires |args| > 1
    ensures Join(args) == Quote(args[0]) + (" " + Join(args[1..]))
  {
  }

  // ---- What cannot come back ----

  function Backslashes(s: string): nat {
    if s == [] then 0 else (if s[0] == '\\' then 1 else 0) + Backslashes(s[1..])
  }

  function BackslashesIn(words: seq<string>): nat {
    if words == [] then 0 else BackslashesIn(words[..|words| - 1]) + Backslashes(words[|words| - 1])
  }

  lemma {:induction false} BackslashesConcat(a: string, b: string)
    ensures Backslashes(a + b) == Backslashes(a) + Backslashes(b)
  {
    if a == [] {
      assert a + b == b;
    } else {
      assert (a + b)[1..] == a[1..] + b;
      BackslashesConcat(a[1..], b);
    }
  }

  function Kept(l: Lexer): nat {
    BackslashesIn(l.words) + Backslashes(l.current)
  }

  lemma TurnKeeps(l: Lexer, ch: char)
    ensures Kept(Turn(l, ch)) == Kept(l) + if l.escape && ch == '\\' then 1 else 0
    ensures Turn(l, ch).escape <==> !l.escape && ch == '\\'
    ensures (forall i :: 0 <= i < |l.words| ==> l.words[i] != "") ==>
            forall i :: 0 <= i < |Turn(l, ch).words| ==> Turn(l, ch).words[i] != ""
  {
    BackslashesConcat(l.current, [ch]);
    assert Backslashes([ch]) == if ch == '\\' then 1 else 0;
    assert (l.words + [l.current])[..|l.words|] == l.words;
  }

  /** Of the backslashes in the text at most half survive: the first is always lost. */
  lemma {:induction false} ScanLosesBackslashes(l: Lexer, text: string)
    ensures Kept(Scan(l, text)) <= Kept(l) + Backslashes(text)
    ensures !l.escape && Backslashes(text) > 0 ==> Kept(Scan(l, text)) < Kept(l) + Backslashes(text)
    ensures (forall i :: 0 <= i < |l.words| ==> l.words[i] != "") ==>
            forall i :: 0 <= i < |Scan(l, text).words| ==> Scan(l, text).words[i] != ""
    decreases |text|
  {
    if text != [] {
      TurnKeeps(l, text[0]);
      ScanLosesBackslashes(Turn(l, text[0]), text[1..]);
    }
  }

  lemma {:induction false} EscapeKeepsBackslashes(value: string)
    ensures Backslashes(EscapeQuotes(value)) == Backslashes(value)
  {
    if value != [] {
      EscapeKeepsBackslashes(value[1..]);
      var head := if value[0] == '\'' then "'\"'\"'" else [value[0]];
      BackslashesConcat(head, EscapeQuotes(value[1..]));
      BackslashFree("'\"'\"'");
      assert value[0] != '\'' ==> Backslashes([value[0]]) == if value[0] == '\\' then 1 else 0;
    }
  }

  lemma {:induction false} BackslashFree(s: string)
    ensures Backslashes(s) == 0 <==> '\\' !in s
  {
    if s != [] {
      BackslashFree(s[1..]);
      assert '\\' in s <==> s[0] == '\\' || '\\' in s[1..];
    }
  }

  lemma QuoteKeepsBackslashes(value: string)
    ensures Backslashes(Quote(value)) == Backslashes(value)
  {
    EscapeKeepsBackslashes(value);
    BackslashesConcat("'" + EscapeQuotes(value), "'");
    BackslashesConcat("'", EscapeQuotes(value));
    BackslashFree("'");
  }

  lemma {:induction false} BackslashesInConcat(w: string, words: seq<string>)
    ensures BackslashesIn([w] + words) == Backslashes(w) + BackslashesIn(words)
    decreases |words|
  {
    if words == [] {
      assert [w] + words == [w] && [w][..0] == [];
    } else {
      var n := |words| - 1;
      assert ([w] + words)[..|words|] == [w] + words[..n];
      BackslashesInConcat(w, words[..n]);
    }
  }

  lemma {:induction false} JoinKeepsBackslashes(args: seq<string>)
    ensures Backslashes(Join(args)) == BackslashesIn(args)
    decreases |args|
  {
    if args != [] {
      QuoteKeepsBackslashes(args[0]);
      BackslashesInConcat(args[0], args[1..]);
      assert args == [args[0]] + args[1..];
      if |args| > 1 {
        JoinKeepsBackslashes(args[1..]);
        BackslashesConcat(Quote(args[0]) + " ", Join(args[1..]));
        BackslashesConcat(Quote(args[0]), " ");
        BackslashFree(" ");
      }
    }
  }

  lemma {:induction false} BackslashesInZero(words: seq<string>)
    ensures BackslashesIn(words) == 0 ==> forall i :: 0 <= i < |words| ==> Plain(words[i])
  {
    if words != [] {
      BackslashesInZero(words[..|words| - 1]);
      BackslashFree(words[|words| - 1]);
    }
  }

  /** Splitting a joined command gives back the arguments exactly when none of them
      is empty and none contains a backslash. */
  lemma RoundTripIff(args: seq<string>)
    ensures Words(Join(args)) == args <==> Safe(args)
  {
    if Safe(args) {
      ScanJoined([], args);
      assert [] + args == args;
    } else if Words(Join(args)) == args {
      var l := Scan(START, Join(args));
      ScanLosesBackslashes(START, Join(args));
      JoinKeepsBackslashes(args);
      assert Finish(l) == args;
      assert (l.words + [l.current])[..|l.words|] == l.words;
      assert Kept(l) == BackslashesIn(args);
      BackslashesInZero(args);
      assert false;
    }
  }
}
