// The shell's command line: separate_args cuts one command off the line, trim_line moves to the next.
// A C string is a sequence of characters without the terminator.

module ShellParser {

  type Command = seq<string>

  // ----- separate_args -----

  /** The text before the first space. */
  function Token(s: string): (t: string)
    ensures |t| <= |s|
  {
    if s == "" || s[0] == ' ' then "" else [s[0]] + Token(s[1..])
  }

  /** strncmp("|", token, |token|) == 0 */
  predicate EndsCommand(token: string) { token == "" || token == "|" }

  /** The arguments from here up to a pipe sign or the end of the line, and whether a pipe sign was met. */
  function Scan(s: string): (Command, bool)
    decreases |s|
  {
    var t := Token(s);
    if EndsCommand(t) then ([], true)
    else if |t| == |s| then ([t], false)
    else
      var (rest, more) := Scan(s[|t| + 1..]);
      ([t] + rest, more)
  }

  function SeparateArgs(line: string): (Command, bool) {
    if line == "" then ([], false) else Scan(line)
  }

  // ----- trim_line -----

  function TotalLength(args: Command): nat {
    if args == [] then 0 else |args[0]| + TotalLength(args[1..])
  }

  predicate IsAlnum(c: char) { '0' <= c <= '9' || 'A' <= c <= 'Z' || 'a' <= c <= 'z' }

  /** One of the sixty-two, written out. */
  predicate LetterOrDigit(c: char) {
    c in {'0', '1', '2', '3', '4', '5', '6', '7', '8', '9',
          'A', 'B', 'C', 'D', 'E', 'F', 'G', 'H', 'I', 'J', 'K', 'L', 'M',
          'N', 'O', 'P', 'Q', 'R', 'S', 'T', 'U', 'V', 'W', 'X', 'Y', 'Z',
          'a', 'b', 'c', 'd', 'e', 'f', 'g', 'h', 'i', 'j', 'k', 'l', 'm',
          'n', 'o', 'p', 'q', 'r', 's', 't', 'u', 'v', 'w', 'x', 'y', 'z'}
  }

  /** The class isalnum() stands for in the C locale. */
  lemma AlnumIsLettersAndDigits(c: char)
    ensures IsAlnum(c) <==> LetterOrDigit(c)
    ensures IsAlnum(c) <==>
            c in {'0', '1', '2', '3', '4', '5', '6', '7', '8', '9',
                  'A', 'B', 'C', 'D', 'E', 'F', 'G', 'H', 'I', 'J', 'K', 'L', 'M',
                  'N', 'O', 'P', 'Q', 'R', 'S', 'T', 'U', 'V', 'W', 'X', 'Y', 'Z',
                  'a', 'b', 'c', 'd', 'e', 'f', 'g', 'h', 'i', 'j', 'k', 'l', 'm',
                  'n', 'o', 'p', 'q', 'r', 's', 't', 'u', 'v', 'w', 'x', 'y', 'z'}
  {
  }

  function SkipToAlnum(s: string): (r: string)
    ensures |r| <= |s|
    ensures r != "" ==> IsAlnum(r[0])
  {
    if s == "" || IsAlnum(s[0]) then s else SkipToAlnum(s[1..])
  }

  /** Where trim_line leaves the line pointer: past the arguments and the single spaces between them, then on to the
      next letter or digit. */
  function TrimLine(line: string, args: Command): string
    requires args != [] && TotalLength(args) + |args| - 1 <= |line|
  {
    SkipToAlnum(line[TotalLength(args) + |args| - 1..])
  }

  // The scanned arguments are found in the text one after the other, with a character between them.
  lemma {:induction false} ScanFits(s: string)
    ensures var (args, more) := Scan(s);
            args != [] ==> |args| <= TotalLength(args) && TotalLength(args) + |args| - 1 <= |s|
    ensures var (args, more) := Scan(s); more ==> |s| == 0 || args == [] || TotalLength(args) + |args| <= |s|
    decreases |s|
  {
    var t := Token(s);
    if !EndsCommand(t) && |t| < |s| {
      ScanFits(s[|t| + 1..]);
      var (rest, more) := Scan(s[|t| + 1..]);
      assert ([t] + rest)[1..] == rest;
    }
  }

  // A line that starts with a letter or digit yields at least one argument, starting with that character.
  lemma ScanFromAlnum(s: string)
    requires s != "" && IsAlnum(s[0])
    ensures Scan(s).0 != [] && Scan(s).0[0] != "" && Scan(s).0[0][0] == s[0]
  {
    assert Token(s)[0] == s[0];
  }

  // ----- the parse loop of shell_start -----

  /** The line starts with an argument. Otherwise the loop would read before the start of the line. */
  predicate Startable(line: string) { SeparateArgs(line).0 != [] }

  predicate Parsable(line: string) { line == "" || Startable(line) }

  function Parse(line: string): (cs: seq<Command>)
    requires Parsable(line)
    ensures |cs| > 0
    decreases |line|
  {
    var (args, more) := SeparateArgs(line);
    if !more then [args]
    else
      ScanFits(line);
      var rest := TrimLine(line, args);
      if rest != "" then ScanFromAlnum(rest); [args] + Parse(rest)
      else [args] + Parse(rest)
  }

  function Prepend(args: Command, r: (Command, bool)): (Command, bool) { (args + r.0, r.1) }

  lemma ScanTurn(args: Command, rest: string, token: string)
    requires token == Token(rest)
    ensures EndsCommand(token) ==> Prepend(args, Scan(rest)) == (args, true)
    ensures !EndsCommand(token) && |token| == |rest| ==> Prepend(args, Scan(rest)) == (args + [token], false)
    ensures !EndsCommand(token) && |token| < |rest| ==>
              Prepend(args, Scan(rest)) == Prepend(args + [token], Scan(rest[|token| + 1..]))
  {
    if EndsCommand(token) {
      assert args + [] == args;
    } else if |token| < |rest| {
      var later := Scan(rest[|token| + 1..]).0;
      assert args + ([token] + later) == (args + [token]) + later;
    }
  }

  // A char pointer into the line is the text from there on: `rest` is line + pos.
  method SeparateArgsOf(line: string) returns (args: Command, more: bool)
    ensures (args, more) == SeparateArgs(line)
  {
    var pos, rest := 0, line;
    args, more := [], false;
    assert [] + Scan(line).0 == Scan(line).0;
    // The guard is line[line_pos != 0]: it looks at character 0 or 1, never further.
    while if pos == 0 then |line| > 0 else |line| > 1
      invariant pos + |rest| == |line| && (pos == 0 || |line| > 1) && !more
      invariant pos == 0 ==> args == []
      invariant Scan(line) == Prepend(args, Scan(rest))
      decreases |rest|
    {
      var token := Token(rest);
      ScanTurn(args, rest, token);
      if EndsCommand(token) {
        more := true;
        break;
      }
      args := args + [token];
      if |token| == |rest| {
        break;
      }
      pos := pos + |token| + 1;
      rest := rest[|token| + 1..];
    }
  }

  lemma {:induction false} TotalLengthAppend(args: Command, a: string)
    ensures TotalLength(args + [a]) == TotalLength(args) + |a|
  {
    if args != [] {
      assert (args + [a])[1..] == args[1..] + [a];
      TotalLengthAppend(args[1..], a);
    }
  }

  method ArgsLength(args: Command) returns (length: nat)
    ensures length == TotalLength(args)
  {
    length := 0;
    for count := 0 to |args|
      invariant length == TotalLength(args[..count])
    {
      TotalLengthAppend(args[..count], args[count]);
      assert args[..count + 1] == args[..count] + [args[count]];
      length := length + |args[count]|;
    }
    assert args[..|args|] == args;
  }

  method TrimLineFrom(line: string, args: Command) returns (rest: string)
    requires args != [] && TotalLength(args) + |args| - 1 <= |line|
    ensures rest == TrimLine(line, args)
  {
    var length := ArgsLength(args);
    rest := line[length + |args| - 1..];
    while rest != "" && !IsAlnum(rest[0])
      invariant SkipToAlnum(rest) == TrimLine(line, args)
      decreases |rest|
    {
      rest := rest[1..];
    }
  }

  // ----- printing -----

  predicate ValidArg(a: string) { a != "" && ' ' !in a && a != "|" }

  predicate ValidCommand(c: Command) { c != [] && forall i :: 0 <= i < |c| ==> ValidArg(c[i]) }

  predicate ValidPipeline(cs: seq<Command>) { cs != [] && forall k :: 0 <= k < |cs| ==> ValidCommand(cs[k]) }

  function PrintCommand(c: Command): string
    requires c != []
  {
    if |c| == 1 then c[0] else c[0] + " " + PrintCommand(c[1..])
  }

  function Print(cs: seq<Command>): string
    requires ValidPipeline(cs)
  {
    if |cs| == 1 then PrintCommand(cs[0]) else PrintCommand(cs[0]) + " | " + Print(cs[1..])
  }

  lemma {:induction false} PrintedLength(c: Command)
    requires c != []
    ensures |PrintCommand(c)| == TotalLength(c) + |c| - 1
  {
    if |c| > 1 {
      PrintedLength(c[1..]);
    }
  }

  lemma {:induction false} TokenOfPrinted(a: string, rest: string)
    requires ' ' !in a && (rest == "" || rest[0] == ' ')
    ensures Token(a + rest) == a
  {
    if a == "" {
      assert a + rest == rest;
    } else {
      assert (a + rest)[1..] == a[1..] + rest;
      TokenOfPrinted(a[1..], rest);
    }
  }

  lemma ScanAtPipe(rest: string)
    ensures Scan("|" + (" " + rest)) == ([], true)
  {
    TokenOfPrinted("|", " " + rest);
  }

  // Scanning a printed command gives it back, whatever follows the pipe sign.
  lemma {:induction false} ScanOfPrinted(c: Command, tail: string, rest: string)
    requires ValidCommand(c) && (tail == "" || tail == " | " + rest)
    ensures Scan(PrintCommand(c) + tail) == (c, tail != "")
    decreases |c|
  {
    var s := PrintCommand(c) + tail;
    if |c| == 1 {
      TokenOfPrinted(c[0], tail);
      if tail != "" {
        ScanAtPipe(rest);
        assert s[|c[0]| + 1..] == "|" + (" " + rest);
        assert s[|c[0]|] == ' ';
        assert [c[0]] + [] == c;
      } else {
        assert [c[0]] == c;
      }
    } else {
      var after := PrintCommand(c[1..]) + tail;
      assert s == c[0] + (" " + after);
      TokenOfPrinted(c[0], " " + after);
      assert s[|c[0]| + 1..] == after;
      ScanOfPrinted(c[1..], tail, rest);
      assert [c[0]] + c[1..] == c;
    }
  }

  lemma SkipOne(c: char, s: string)
    requires !IsAlnum(c)
    ensures SkipToAlnum([c] + s) == SkipToAlnum(s)
  {
    assert ([c] + s)[1..] == s;
  }

  lemma SkipSeparator(next: string)
    ensures SkipToAlnum(" | " + next) == SkipToAlnum(next)
  {
    var s := " | " + next;
    assert s == [' '] + (['|'] + ([' '] + next));
    SkipOne(' ', ['|'] + ([' '] + next));
    SkipOne('|', [' '] + next);
    SkipOne(' ', next);
  }

  lemma TrimToNextCommand(c: Command, tail: string, next: string)
    requires ValidCommand(c) && tail == " | " + next && next != "" && IsAlnum(next[0])
    ensures TotalLength(c) + |c| - 1 <= |PrintCommand(c) + tail|
    ensures TrimLine(PrintCommand(c) + tail, c) == next
  {
    PrintedLength(c);
    assert (PrintCommand(c) + tail)[TotalLength(c) + |c| - 1..] == tail;
    SkipSeparator(next);
  }

  lemma PrintStarts(cs: seq<Command>)
    requires ValidPipeline(cs)
    ensures Print(cs) != "" && Print(cs)[0] == cs[0][0][0]
  {
  }

  /** Every command after the first starts with a letter or digit. */
  predicate LaterCommandsAlnum(cs: seq<Command>)
    requires ValidPipeline(cs)
  {
    forall k :: 1 <= k < |cs| ==> IsAlnum(cs[k][0][0])
  }

  lemma PrintSplit(cs: seq<Command>)
    requires ValidPipeline(cs) && |cs| > 1
    ensures Print(cs) == PrintCommand(cs[0]) + (" | " + Print(cs[1..]))
  {
  }

  lemma PrintIsStartable(cs: seq<Command>)
    requires ValidPipeline(cs)
    ensures Print(cs) != "" && SeparateArgs(Print(cs)) == (cs[0], |cs| > 1)
    ensures Startable(Print(cs))
  {
    PrintStarts(cs);
    if |cs| == 1 {
      ScanOfPrinted(cs[0], "", "");
      assert Print(cs) == PrintCommand(cs[0]) + "";
    } else {
      PrintSplit(cs);
      ScanOfPrinted(cs[0], " | " + Print(cs[1..]), Print(cs[1..]));
    }
  }

  // One turn of the parse loop.
  lemma ParseStep(line: string)
    requires Startable(line)
    ensures var (args, more) := SeparateArgs(line);
            && TotalLength(args) + |args| - 1 <= |line|
            && (!more ==> Parse(line) == [args])
            && (more ==>
                  var rest := TrimLine(line, args);
                  |rest| < |line| && Parsable(rest) && Parse(line) == [args] + Parse(rest))
  {
    ScanFits(line);
    var (args, more) := SeparateArgs(line);
    var rest := TrimLine(line, args);
    if rest != "" {
      ScanFromAlnum(rest);
    }
  }

  lemma {:induction false} ParseOfPrint(cs: seq<Command>)
    requires ValidPipeline(cs) && LaterCommandsAlnum(cs)
    ensures Startable(Print(cs))
    ensures Parse(Print(cs)) == cs
    decreases |cs|
  {
    PrintIsStartable(cs);
    ParseStep(Print(cs));
    if |cs| > 1 {
      PrintSplit(cs);
      PrintStarts(cs[1..]);
      TrimToNextCommand(cs[0], " | " + Print(cs[1..]), Print(cs[1..]));
      ParseOfPrint(cs[1..]);
    }
  }

  // Whatever the line, a command after a pipe sign is empty or starts with a letter or digit.
  lemma {:induction false} ParsedTailsAlnum(line: string, k: nat)
    requires Parsable(line) && 1 <= k < |Parse(line)|
    ensures Parse(line)[k] == [] || (Parse(line)[k][0] != "" && IsAlnum(Parse(line)[k][0][0]))
    decreases |line|
  {
    if line != "" {
      ParseStep(line);
      var rest := TrimLine(line, SeparateArgs(line).0);
      if k > 1 {
        ParsedTailsAlnum(rest, k - 1);
      } else if rest != "" {
        ScanFromAlnum(rest);
        ParseStep(rest);
      }
    }
  }

  // ----- what the parser does, said of the characters -----

  /** A line starts with an argument unless its first token is empty or a pipe sign. */
  lemma StartableExactlyWhen(line: string)
    ensures Startable(line) <==> line != "" && line[0] != ' ' && line != "|" && !("| " <= line)
  {
    if line != "" && line[0] == '|' {
      assert Token(line) == ['|'] + Token(line[1..]);
      if line == "|" {
      } else if line[1] == ' ' {
        assert Token(line[1..]) == "";
      } else {
        assert Token(line[1..]) == [line[1]] + Token(line[2..]);
      }
    } else if line != "" && line[0] != ' ' {
      assert Token(line)[0] == line[0];
    }
  }

  lemma StopsAt(tail: string)
    requires tail == " " || "  " <= tail || tail == " |" || " | " <= tail
    ensures Scan(tail[1..]) == ([], true) && tail[0] == ' '
  {
    StartableExactlyWhen(tail[1..]);
    if tail != " " && tail[1] == '|' {
      assert |tail| > 2 ==> " | "[2] == ' ' == tail[2];
    }
  }

  /**
   * Arguments without spaces, none of them empty or a pipe sign, separated by single spaces: they are read up to the
   * end of the line, or up to a second space, a space at the end or a pipe sign that stands alone, which ask for more.
   */
  lemma {:induction false} SeparateArgsMeans(c: Command, tail: string)
    requires c != [] && forall i :: 0 <= i < |c| ==> c[i] != "" && c[i] != "|" && ' ' !in c[i]
    requires tail == "" || tail == " " || "  " <= tail || tail == " |" || " | " <= tail
    ensures SeparateArgs(PrintCommand(c) + tail) == (c, tail != "")
    decreases |c|
  {
    var s := PrintCommand(c) + tail;
    assert s != "";
    if |c| == 1 {
      if tail != "" {
        StopsAt(tail);
        TokenOfPrinted(c[0], tail);
        assert s[|c[0]| + 1..] == tail[1..];
        assert [c[0]] + [] == c;
      } else {
        TokenOfPrinted(c[0], tail);
        assert [c[0]] == c;
      }
    } else {
      var after := PrintCommand(c[1..]) + tail;
      assert s == c[0] + (" " + after);
      TokenOfPrinted(c[0], " " + after);
      assert s[|c[0]| + 1..] == after;
      SeparateArgsMeans(c[1..], tail);
      assert after != "";
      assert [c[0]] + c[1..] == c;
    }
  }

  lemma {:induction false} SkipMeans(s: string) returns (skipped: string)
    ensures s == skipped + SkipToAlnum(s)
    ensures forall i :: 0 <= i < |skipped| ==> !LetterOrDigit(skipped[i])
    ensures SkipToAlnum(s) != "" ==> LetterOrDigit(SkipToAlnum(s)[0])
  {
    if s == "" || IsAlnum(s[0]) {
      skipped := "";
      if s != "" {
        AlnumIsLettersAndDigits(s[0]);
      }
    } else {
      skipped := SkipMeans(s[1..]);
      AlnumIsLettersAndDigits(s[0]);
      skipped := [s[0]] + skipped;
    }
  }

  /** After the arguments the line pointer moves over everything that is no letter or digit, and over nothing else. */
  lemma TrimLineMeans(c: Command, tail: string) returns (skipped: string)
    requires c != []
    ensures TotalLength(c) + |c| - 1 <= |PrintCommand(c) + tail|
    ensures tail == skipped + TrimLine(PrintCommand(c) + tail, c)
    ensures forall i :: 0 <= i < |skipped| ==> !LetterOrDigit(skipped[i])
    ensures var rest := TrimLine(PrintCommand(c) + tail, c); rest != "" ==> LetterOrDigit(rest[0])
  {
    PrintedLength(c);
    assert (PrintCommand(c) + tail)[TotalLength(c) + |c| - 1..] == tail;
    skipped := SkipMeans(tail);
  }

  /**
   * The round trip: a pipeline of well-formed arguments, printed with single spaces and pipe signs, parses back to
   * itself exactly when every command after the first starts with a letter or digit.
   */
  lemma ParseUndoesPrint(cs: seq<Command>)
    requires cs != [] && forall k :: 0 <= k < |cs| ==> cs[k] != []
    requires forall k, i :: 0 <= k < |cs| && 0 <= i < |cs[k]| ==>
               cs[k][i] != "" && ' ' !in cs[k][i] && cs[k][i] != "|"
    ensures ValidPipeline(cs) && Startable(Print(cs))
    ensures Parse(Print(cs)) == cs <==> forall k :: 1 <= k < |cs| ==> LetterOrDigit(cs[k][0][0])
  {
    assert forall k :: 0 <= k < |cs| ==> forall i :: 0 <= i < |cs[k]| ==> ValidArg(cs[k][i]);
    PrintIsStartable(cs);
    forall k | 1 <= k < |cs| ensures IsAlnum(cs[k][0][0]) <==> LetterOrDigit(cs[k][0][0]) {
      AlnumIsLettersAndDigits(cs[k][0][0]);
    }
    if LaterCommandsAlnum(cs) {
      ParseOfPrint(cs);
    }
    if Parse(Print(cs)) == cs {
      forall k | 1 <= k < |cs| ensures IsAlnum(cs[k][0][0]) {
        ParsedTailsAlnum(Print(cs), k);
      }
    }
  }

  /** One printed pipeline that comes back. */
  lemma CapitalComesBack()
    ensures ValidPipeline([["a", "-l"], ["Rb"]]) && Print([["a", "-l"], ["Rb"]]) == "a -l | Rb"
    ensures Startable("a -l | Rb") && Parse("a -l | Rb") == [["a", "-l"], ["Rb"]]
  {
    var cs := [["a", "-l"], ["Rb"]];
    assert cs[1..] == [["Rb"]] && cs[0][1..] == ["-l"];
    ParseUndoesPrint(cs);
    PrintSplit(cs);
    AlnumIsLettersAndDigits('R');
    assert PrintCommand(cs[0]) == "a" + " " + "-l" == "a -l";
    assert "a -l" + (" | " + "Rb") == "a -l | Rb";
  }

  lemma ParseOfOneLetter()
    ensures Startable("b") && Parse("b") == [["b"]]
  {
    TokenOfPrinted("b", "");
    assert "b" + "" == "b";
  }

  lemma DotSlashIsSkipped()
    ensures SkipToAlnum(" | " + "./b") == "b"
  {
    SkipSeparator("./b");
    SkipOne('.', "/b");
    SkipOne('/', "b");
    assert ['.'] + "/b" == "./b" && ['/'] + "b" == "/b";
  }

  lemma DotSlashIsTrimmed(cs: seq<Command>)
    requires cs == [["a"], ["./b"]]
    ensures ValidPipeline(cs) && Print(cs) == "a | ./b" && SeparateArgs("a | ./b") == (["a"], true)
    ensures TrimLine("a | ./b", ["a"]) == "b"
  {
    assert cs[1..] == [["./b"]] && cs[0] == ["a"];
    PrintSplit(cs);
    PrintIsStartable(cs);
    assert "a" + (" | " + "./b") == "a | ./b";
    assert ["a"][1..] == [] && TotalLength(["a"]) == 1;
    assert "a | ./b"[1..] == " | " + "./b";
    DotSlashIsSkipped();
  }

  /** One printed pipeline that does not come back: the shell runs b where ./b was asked for. */
  lemma DotSlashIsLost()
    ensures ValidPipeline([["a"], ["./b"]]) && Print([["a"], ["./b"]]) == "a | ./b"
    ensures Startable("a | ./b") && Parse("a | ./b") == [["a"], ["b"]]
  {
    DotSlashIsTrimmed([["a"], ["./b"]]);
    ParseStep("a | ./b");
    ParseOfOneLetter();
  }
}
