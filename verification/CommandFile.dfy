/** The client's command files. */
module CommandFiles {
  import opened Options
  import opened Commands
  import opened LogFiles
  import opened Text

  function ToLower(s: string): (r: string)
    ensures |r| == |s|
    ensures forall i :: 0 <= i < |s| ==> r[i] == if 'A' <= s[i] <= 'Z' then (s[i] as int + 32) as char else s[i]
  {
    seq(|s|, (i: nat) requires i < |s| => if 'A' <= s[i] <= 'Z' then (s[i] as int + 32) as char else s[i])
  }

  /** create_command; None when an assertion, an unpacking or int() fails. */
  function CreateCommand(text: string): Option<Command> {
    var items := Split(RStrip(RStrip(text, " "), "\n"), ' ');
    if |items| != 2 || ToLower(items[0]) !in ["lock", "unlock"] then None
    else
      match ParseInt(items[1])
      case None => None
      case Some(n) => Some(Command(if ToLower(items[0]) == "unlock" then UNLOCK else LOCK, n))
  }

  lemma KindTextIsLower(k: CommandType)
    ensures ToLower(KindText(k)) == KindText(k)
  {
  }

  /** create_command inverts printing, for negative ids too and with newlines and then
      spaces behind the command; a NONE command prints to text it refuses. */
  lemma CreateInvertsPrinting(c: Command, newlines: string, spaces: string)
    requires Over(newlines, "\n") && Over(spaces, " ")
    ensures CreateCommand(PrintCommand(c) + newlines + spaces) == if c.kind.NONE? then None else Some(c)
  {
    var s := PrintCommand(c);
    CommandText(c);
    CommandSplits(c);
    ParsePrintedAlone(c.resource);
    KindTextIsLower(c.kind);
    LastIsDigit(c);
    RStripPadding(s + newlines, spaces, " ");
    RStripPadding(s, newlines, "\n");
  }

  lemma LastIsDigit(c: Command)
    ensures var s := PrintCommand(c); s != [] && IsDigit(s[|s| - 1])
  {
    var s, t := PrintCommand(c), PrintInt(c.resource);
    assert s[|s| - 1] == t[|t| - 1];
  }

  /** A command file as the generators write it. */
  function PrintFile(cs: seq<Command>): string {
    if cs == [] then "" else PrintCommand(cs[0]) + "\n" + PrintFile(cs[1..])
  }

  function LoadCommands(lines: seq<string>): Option<seq<Command>> {
    if lines == [] then Some([])
    else
      match CreateCommand(lines[0])
      case None => None
      case Some(c) =>
        match LoadCommands(lines[1..])
        case None => None
        case Some(rest) => Some([c] + rest)
  }

  function Prepend(cs: seq<Command>, rest: Option<seq<Command>>): Option<seq<Command>> {
    if rest.None? then None else Some(cs + rest.value)
  }

  /** The loading loop of send_commands_from_file. */
  method LoadCommandFile(file: string) returns (r: Option<seq<Command>>)
    ensures r == LoadCommands(Lines(file))
  {
    var rest := Lines(file);
    var cmdList: seq<Command> := [];
    ghost var all := LoadCommands(rest);
    assert all.Some? ==> cmdList + all.value == all.value;
    while rest != []
      invariant all == Prepend(cmdList, LoadCommands(rest))
      decreases |rest|
    {
      var c := CreateCommand(rest[0]);
      if c == None {
        return None;
      }
      ghost var later := LoadCommands(rest[1..]);
      assert later.Some? ==> cmdList + ([c.value] + later.value) == (cmdList + [c.value]) + later.value;
      cmdList := cmdList + [c.value];
      rest := rest[1..];
    }
    assert cmdList + [] == cmdList;
    r := Some(cmdList);
  }

  predicate NoneIn(cs: seq<Command>) {
    exists i :: 0 <= i < |cs| && cs[i].kind.NONE?
  }

  lemma FirstFileLine(cs: seq<Command>)
    requires cs != []
    ensures Lines(PrintFile(cs)) == [PrintCommand(cs[0]) + "\n"] + Lines(PrintFile(cs[1..]))
    ensures CreateCommand(PrintCommand(cs[0]) + "\n") == if cs[0].kind.NONE? then None else Some(cs[0])
  {
    CommandText(cs[0]);
    FirstOfLines(PrintCommand(cs[0]), PrintFile(cs[1..]));
    CreateInvertsPrinting(cs[0], "\n", "");
    assert PrintCommand(cs[0]) + "\n" + "" == PrintCommand(cs[0]) + "\n";
  }

  lemma LoadFirst(line: string, rest: seq<string>)
    ensures LoadCommands([line] + rest)
         == if CreateCommand(line).None? then None else Prepend([CreateCommand(line).value], LoadCommands(rest))
  {
    assert ([line] + rest)[1..] == rest;
  }

  /** Loading a generated file gives back its commands, unless one is neither a lock nor
      an unlock. */
  lemma {:induction false} FilesRoundTrip(cs: seq<Command>)
    ensures LoadCommands(Lines(PrintFile(cs))) == if NoneIn(cs) then None else Some(cs)
  {
    if cs != [] {
      FilesRoundTrip(cs[1..]);
      FirstFileLine(cs);
      LoadFirst(PrintCommand(cs[0]) + "\n", Lines(PrintFile(cs[1..])));
      NoneSplits(cs);
      assert [cs[0]] + cs[1..] == cs;
    }
  }

  lemma NoneSplits(cs: seq<Command>)
    requires cs != []
    ensures NoneIn(cs) <==> cs[0].kind.NONE? || NoneIn(cs[1..])
  {
    if NoneIn(cs) && !cs[0].kind.NONE? {
      var i :| 0 <= i < |cs| && cs[i].kind.NONE?;
      assert cs[1..][i - 1].kind.NONE?;
    }
  }
}
