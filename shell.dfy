/**
 * What the two command-line clients share: the read-dispatch loop of main, ASCII
 * lower-casing of the command word, and the "Error: <status> - <text>" reply format.
 * Reading a line and splitting it into tokens is not modelled: each input line
 * arrives as its token list.
 */
module Shell {
  import opened Wrappers
  import opened Literals
  import opened Api

  function LowerChar(c: char): char
  {
    if 'A' <= c <= 'Z' then (c as int + 32) as char else c
  }

  /** str.lower() on ASCII letters; other characters are left as they are. */
  function Lower(s: string): (r: string)
    ensures |r| == |s|
  {
    seq(|s|, i requires 0 <= i < |s| => LowerChar(s[i]))
  }

  /** A known command word already lower-case reads as itself. */
  lemma LowerKeepsLowerCase(s: string)
    requires forall i :: 0 <= i < |s| ==> !('A' <= s[i] <= 'Z')
    ensures Lower(s) == s
  {
    assert forall i :: 0 <= i < |s| ==> Lower(s)[i] == s[i];
  }

  /** How main treats one input line. */
  datatype Parsed<C> =
    | NoCommand              // an empty line: parts[0] raises IndexError
    | Quit                   // "exit": the loop ends
    | Usage(message: string) // a known command with the wrong number of tokens
    | Unknown                // "Invalid command"
    | Cmd(command: C)        // a request is sent

  const InvalidCommand := "Invalid command"

  /** How every usage message of a command begins. */
  function UsageHead(name: string): string
  {
    "Invalid '" + name + "' command. Format: " + name
  }

  datatype Verb = Get | Post

  /** An HTTP request as a handler sends it: the method, the full URL and the form or query fields. */
  datatype Request = Request(verb: Verb, url: string, fields: Form)

  predicate Continues<C>(p: Parsed<C>)
  {
    p.Usage? || p.Unknown? || p.Cmd?
  }

  /** The requests sent while processing these lines, in order. */
  function Issued<C>(parse: seq<string> -> Parsed<C>, lines: seq<seq<string>>): seq<C>
  {
    if lines == [] then []
    else
      Issued(parse, lines[..|lines| - 1]) +
        match parse(lines[|lines| - 1])
        case Cmd(c) => [c]
        case _ => []
  }

  datatype Ending = Exited | EmptyLine | EndOfInput

  /**
   * main's while-True loop over the lines typed: each line is dispatched; usage errors and
   * unknown commands send nothing and the loop goes on; "exit" ends it; an empty line, or
   * running out of input, ends it with an unhandled exception.
   */
  method RunSession<C>(parse: seq<string> -> Parsed<C>, lines: seq<seq<string>>)
    returns (sent: seq<C>, stop: nat, ending: Ending)
    ensures stop <= |lines|
    ensures forall k :: 0 <= k < stop ==> Continues(parse(lines[k]))
    ensures ending == Exited <==> stop < |lines| && parse(lines[stop]).Quit?
    ensures ending == EmptyLine <==> stop < |lines| && parse(lines[stop]).NoCommand?
    ensures ending == EndOfInput <==> stop == |lines|
    ensures sent == Issued(parse, lines[..stop])
  {
    sent, stop := [], 0;
    while stop < |lines|
      invariant stop <= |lines|
      invariant forall k :: 0 <= k < stop ==> Continues(parse(lines[k]))
      invariant sent == Issued(parse, lines[..stop])
    {
      var parsed := parse(lines[stop]);
      match parsed {
        case Quit =>
          return sent, stop, Exited;
        case NoCommand =>
          return sent, stop, EmptyLine;
        case Usage(_) =>
        case Unknown =>
        case Cmd(c) =>
          sent := sent + [c];
      }
      assert lines[..stop + 1][..stop] == lines[..stop];
      stop := stop + 1;
    }
    ending := EndOfInput;
  }

  /** A usage error or an unknown command sends no request. */
  lemma {:induction false} IssuedCountsCommands<C>(parse: seq<string> -> Parsed<C>, lines: seq<seq<string>>)
    ensures |Issued(parse, lines)| <= |lines|
    ensures (forall k :: 0 <= k < |lines| ==> !parse(lines[k]).Cmd?) ==> Issued(parse, lines) == []
  {
    if lines != [] {
      var init := lines[..|lines| - 1];
      assert forall k :: 0 <= k < |init| ==> init[k] == lines[k];
      IssuedCountsCommands(parse, init);
    }
  }

  function ErrorLine(status: int, text: string): string
  {
    "Error: " + ShowInt(status) + " - " + text
  }

  /** What a handler prints for a reply: its text on 200, the error line otherwise. */
  function Reply(status: int, text: string): (out: string)
    ensures status == 200 ==> out == text
    ensures status != 200 ==> out == ErrorLine(status, text)
  {
    if status == 200 then text else ErrorLine(status, text)
  }

  /** An error line gives back both the status code and the server's text. */
  lemma ErrorLineReadsBack(status: int, text: string)
    ensures var line, n := ErrorLine(status, text), |ShowInt(status)|;
      && |line| == 10 + n + |text|
      && line[..7] == "Error: "
      && IsIntLiteral(line[7..7 + n]) && IntValue(line[7..7 + n]) == status
      && (|Unsigned(line[7..7 + n])| <= MaxIntDigits ==> ParseInt(line[7..7 + n]) == Some(status))
      && line[7 + n..10 + n] == " - "
      && line[10 + n..] == text
  {
    var digits := ShowInt(status);
    var line := ErrorLine(status, text);
    assert line == "Error: " + digits + " - " + text;
    assert line[7..7 + |digits|] == digits;
    ShowIntValue(status);
    if |Unsigned(digits)| <= MaxIntDigits {
      ParseShowInt(status);
    }
  }
}
