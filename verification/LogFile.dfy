/** The servers' log files and the checker that reads them back. */
module LogFiles {
  import opened Options
  import opened Commands
  import opened Messages
  import opened Proposers
  import opened Replicas
  import opened Text

  // ---------------------------------------------------------------------
  // Printing
  // ---------------------------------------------------------------------

  function KindText(k: CommandType): string {
    match k
    case LOCK => "lock"
    case UNLOCK => "unlock"
    case NONE => "none"
  }

  /** str of a command. */
  function PrintCommand(c: Command): string {
    KindText(c.kind) + " " + PrintInt(c.resource)
  }

  function PrintClient(client: Option<int>): string {
    match client
    case None => "None"
    case Some(n) => PrintInt(n)
  }

  /** The text of a log entry, without its newline. */
  function PrintEntry(e: LogEntry): string {
    (PrintInt(e.instance) + " ") + "-" + ("> cid:" + PrintClient(e.value.client) + " ") + "-"
    + (" " + PrintCommand(CommandOf(e.value)))
  }

  function PrintLog(log: seq<LogEntry>): string {
    if log == [] then "" else PrintEntry(log[0]) + "\n" + PrintLog(log[1..])
  }

  /** An entry whose ids print without a sign. */
  predicate Unsigned(e: LogEntry) {
    (e.value.client.Some? ==> e.value.client.value >= 0) && CommandOf(e.value).resource >= 0
  }

  predicate AllUnsigned(log: seq<LogEntry>) {
    forall i :: 0 <= i < |log| ==> Unsigned(log[i])
  }

  // ---------------------------------------------------------------------
  // Parsing
  // ---------------------------------------------------------------------

  datatype ParsedLine = ParsedLine(instance: string, kind: string, resource: int)

  /** One line of a log as the checker takes it apart; None when an assertion on the
      number of fields or int() fails. */
  function ParseLine(line: string): Option<ParsedLine> {
    var fields := Split(Strip(line, " \t\n"), '-');
    if |fields| != 3 then None
    else
      var words := Split(Strip(fields[2], "\n \t"), ' ');
      if |words| != 2 then None
      else
        match ParseInt(words[1])
        case None => None
        case Some(n) => Some(ParsedLine(fields[0], words[0], n))
  }

  lemma CommandSplits(c: Command)
    ensures Split(PrintCommand(c), ' ') == [KindText(c.kind), PrintInt(c.resource)]
  {
    DashWhenNegative(c.resource);
    SplitFirst(KindText(c.kind), ' ', PrintInt(c.resource));
    SplitWhole(PrintInt(c.resource), ' ');
  }

  lemma CommandText(c: Command)
    ensures '-' in PrintCommand(c) <==> c.resource < 0
    ensures Tight(PrintCommand(c), "\n \t")
    ensures '\n' !in PrintCommand(c)
  {
    DashWhenNegative(c.resource);
    var s, t := PrintCommand(c), PrintInt(c.resource);
    assert s[|s| - 1] == t[|t| - 1];
    assert t[|t| - 1] in t;
    assert s[0] == KindText(c.kind)[0];
  }

  lemma KindTextIsInjective(a: CommandType, b: CommandType)
    requires KindText(a) == KindText(b)
    ensures a == b
  {
    assert KindText(a)[0] == KindText(b)[0];
  }

  /** Equal printing means equal commands. */
  lemma PrintingIsInjective(a: Command, b: Command)
    requires PrintCommand(a) == PrintCommand(b)
    ensures a == b
  {
    CommandSplits(a);
    CommandSplits(b);
    var words := Split(PrintCommand(a), ' ');
    assert words[0] == KindText(a.kind) == KindText(b.kind);
    assert words[1] == PrintInt(a.resource) == PrintInt(b.resource);
    ParsePrintedAlone(a.resource);
    ParsePrintedAlone(b.resource);
    KindTextIsInjective(a.kind, b.kind);
  }

  lemma ClientText(client: Option<int>)
    ensures '-' in PrintClient(client) <==> client.Some? && client.value < 0
    ensures '\n' !in PrintClient(client)
  {
    if client.Some? {
      DashWhenNegative(client.value);
    }
  }

  /** The printed entry has no newline and begins and ends with something strip keeps. */
  lemma EntryText(e: LogEntry)
    ensures '\n' !in PrintEntry(e) && Tight(PrintEntry(e), " \t\n")
  {
    DashWhenNegative(e.instance);
    ClientText(e.value.client);
    var c := CommandOf(e.value);
    CommandText(c);
    var s := PrintEntry(e);
    assert s[|s| - 1] == PrintCommand(c)[|PrintCommand(c)| - 1];
    assert s[0] == PrintInt(e.instance)[0];
  }

  lemma EntryIsLine(e: LogEntry)
    ensures '\n' !in PrintEntry(e)
    ensures Strip(PrintEntry(e) + "\n", " \t\n") == PrintEntry(e)
  {
    EntryText(e);
    StripNewline(PrintEntry(e));
  }

  lemma UnsignedFields(e: LogEntry)
    requires Unsigned(e)
    ensures Split(PrintEntry(e), '-')
         == [PrintInt(e.instance) + " ", "> cid:" + PrintClient(e.value.client) + " ",
             " " + PrintCommand(CommandOf(e.value))]
  {
    var a, b, d := PrintInt(e.instance) + " ", "> cid:" + PrintClient(e.value.client) + " ",
        " " + PrintCommand(CommandOf(e.value));
    DashWhenNegative(e.instance);
    ClientText(e.value.client);
    CommandText(CommandOf(e.value));
    SplitThree(a, '-', b, d);
    assert PrintEntry(e) == a + ['-'] + b + ['-'] + d;
  }

  lemma CommandField(c: Command)
    ensures Strip(" " + PrintCommand(c), "\n \t") == PrintCommand(c)
  {
    CommandText(c);
    StripPadding(" ", PrintCommand(c), "", "\n \t");
    assert " " + PrintCommand(c) + "" == " " + PrintCommand(c);
  }

  lemma FieldsParse(line: string, fields: seq<string>, words: seq<string>, n: int)
    requires fields == Split(Strip(line, " \t\n"), '-') && |fields| == 3
    requires words == Split(Strip(fields[2], "\n \t"), ' ') && |words| == 2
    requires ParseInt(words[1]) == Some(n)
    ensures ParseLine(line) == Some(ParsedLine(fields[0], words[0], n))
  {
  }

  /** Unsigned ids: the line splits into exactly its three fields and every part is
      recovered. */
  lemma {:induction false} UnsignedLineParses(e: LogEntry)
    requires Unsigned(e)
    ensures ParseLine(PrintEntry(e) + "\n")
         == Some(ParsedLine(PrintInt(e.instance) + " ", KindText(CommandOf(e.value).kind), CommandOf(e.value).resource))
    ensures ParseInt(PrintInt(e.instance) + " ") == Some(e.instance)
  {
    var c := CommandOf(e.value);
    assert ParseLine(PrintEntry(e) + "\n")
        == Some(ParsedLine(PrintInt(e.instance) + " ", KindText(c.kind), c.resource)) by {
      EntryIsLine(e);
      UnsignedFields(e);
      CommandField(c);
      CommandSplits(c);
      ParsePrintedAlone(c.resource);
      FieldsParse(PrintEntry(e) + "\n", Split(PrintEntry(e), '-'), Split(PrintCommand(c), ' '), c.resource);
    }
    ParsePrinted("", e.instance, " ");
    assert "" + PrintInt(e.instance) + " " == PrintInt(e.instance) + " ";
  }

  lemma ClientField(client: int)
    ensures Split("> cid:" + PrintInt(client) + " ", ':') == ["> cid", PrintInt(client) + " "]
    ensures ParseInt(PrintInt(client) + " ") == Some(client)
  {
    var text := PrintInt(client) + " ";
    DashWhenNegative(client);
    SplitWhole(text, ':');
    SplitFirst("> cid", ':', text);
    assert "> cid" + ":" + text == "> cid:" + PrintInt(client) + " ";
    ParsePrinted("", client, " ");
    assert "" + PrintInt(client) + " " == text;
  }

  /** A line without negative ids tells everything: entries that print the same have the
      same instance, client and command. */
  lemma LineTellsEntry(a: LogEntry, b: LogEntry)
    requires Unsigned(a) && a.value.client.Some? && a.value.payload.Cmd?
    requires Unsigned(b) && b.value.client.Some? && b.value.payload.Cmd?
    requires PrintEntry(a) == PrintEntry(b)
    ensures a == b
  {
    UnsignedFields(a);
    UnsignedFields(b);
    var fields := Split(PrintEntry(a), '-');
    UnsignedLineParses(a);
    UnsignedLineParses(b);
    assert fields[0] == PrintInt(a.instance) + " " == PrintInt(b.instance) + " ";
    ClientField(a.value.client.value);
    ClientField(b.value.client.value);
    assert Split(fields[1], ':')[1] == PrintInt(a.value.client.value) + " " == PrintInt(b.value.client.value) + " ";
    KindTextIsInjective(CommandOf(a.value).kind, CommandOf(b.value).kind);
  }

  /** One command of each kind, letter by letter. */
  lemma SampleCommands()
    ensures PrintCommand(Command(LOCK, 7)) == "lock 7"
    ensures PrintCommand(Command(UNLOCK, -7)) == "unlock -7"
    ensures PrintCommand(Command(NONE, 0)) == "none 0"
  {
    assert PrintInt(7) == "7" && PrintInt(0) == "0" && PrintInt(-7) == "-" + "7";
  }

  /** One line, letter by letter. */
  lemma SampleLine()
    ensures PrintEntry(LogEntry(4, Value(Cmd(Command(LOCK, 7)), Some(2)))) == "4 -> cid:2 - lock 7"
  {
    assert PrintInt(4) == "4" && PrintInt(2) == "2" && PrintInt(7) == "7";
  }

  /** Whatever a line is, it takes exactly two dashes to get past the assertion on its
      fields. */
  lemma ParsedLineHasTwoDashes(line: string)
    requires ParseLine(line).Some?
    ensures multiset(line)['-'] == 2
  {
    var left := LStrip(line, " \t\n");
    LStripKeepsCount(line, " \t\n", '-');
    RStripKeepsCount(left, " \t\n", '-');
    SplitCounts(Strip(line, " \t\n"), '-');
  }

  lemma CountOfThree(a: string, b: string, d: string)
    ensures multiset(a + "-" + b + "-" + d + "\n")['-'] == multiset(a)['-'] + multiset(b)['-'] + multiset(d)['-'] + 2
  {
  }

  lemma NegativeAddsDash(e: LogEntry)
    requires !Unsigned(e)
    ensures multiset(PrintEntry(e) + "\n")['-'] > 2
  {
    var a, b := PrintInt(e.instance) + " ", "> cid:" + PrintClient(e.value.client) + " ";
    var d := " " + PrintCommand(CommandOf(e.value));
    ClientText(e.value.client);
    CommandText(CommandOf(e.value));
    CountOfThree(a, b, d);
    assert '-' in PrintClient(e.value.client) ==> '-' in b;
    assert '-' in PrintCommand(CommandOf(e.value)) ==> '-' in d;
  }

  /** A negative id adds a dash, so the line no longer has three fields. */
  lemma SignedLineFails(e: LogEntry)
    requires !Unsigned(e)
    ensures ParseLine(PrintEntry(e) + "\n") == None
  {
    NegativeAddsDash(e);
    if ParseLine(PrintEntry(e) + "\n").Some? {
      ParsedLineHasTwoDashes(PrintEntry(e) + "\n");
    }
  }

  // ---------------------------------------------------------------------
  // The checker
  // ---------------------------------------------------------------------

  /** validate_lock_file on the remaining lines: its result, or None when it raises. */
  function ValidateLines(lines: seq<string>, lockSet: seq<int>): Option<bool> {
    if lines == [] then Some(true)
    else
      match ParseLine(lines[0])
      case None => None
      case Some(p) =>
        if p.kind == "lock" then
          if p.resource in lockSet then None else ValidateLines(lines[1..], lockSet + [p.resource])
        else if p.kind == "unlock" then
          if p.resource !in lockSet || p.resource in RemoveFirst(lockSet, p.resource) then None
          else ValidateLines(lines[1..], RemoveFirst(lockSet, p.resource))
        else Some(false)
  }

  predicate Accepts(file: string) {
    ValidateLines(Lines(file), []) == Some(true)
  }

  /** validate_lock_file; None stands for a failed assertion or conversion. */
  method ValidateLockFile(file: string) returns (r: Option<bool>)
    ensures r == ValidateLines(Lines(file), [])
  {
    var lines := Lines(file);
    var lockSet: seq<int> := [];
    var k := 0;
    while k < |lines|
      invariant 0 <= k <= |lines|
      invariant ValidateLines(lines, []) == ValidateLines(lines[k..], lockSet)
    {
      var line := ParseLine(lines[k]);
      if line == None {
        return None;
      }
      var kind, resource := line.value.kind, line.value.resource;
      if kind == "lock" {
        if resource in lockSet {
          return None;
        }
        lockSet := lockSet + [resource];
      } else if kind == "unlock" {
        if resource !in lockSet {
          return None;
        }
        lockSet := RemoveFirst(lockSet, resource);
        if resource in lockSet {
          return None;
        }
      } else {
        return Some(false);
      }
      k := k + 1;
    }
    r := Some(true);
  }

  /** Executing commands from a given lock table on. */
  function ReplayFrom(lockSet: seq<int>, cs: seq<Command>): Option<seq<int>>
    decreases |cs|
  {
    if cs == [] then Some(lockSet)
    else
      match ExecuteCommand(lockSet, cs[0])
      case None => None
      case Some(t) => ReplayFrom(t, cs[1..])
  }

  lemma {:induction false} ReplayFromAppend(lockSet: seq<int>, cs: seq<Command>, c: Command)
    ensures ReplayFrom(lockSet, cs + [c]) ==
      match ReplayFrom(lockSet, cs)
      case None => None
      case Some(t) => ExecuteCommand(t, c)
    decreases |cs|
  {
    if cs == [] {
      assert ([] + [c])[1..] == [] && ([] + [c])[0] == c && cs + [c] == [c];
    } else {
      assert (cs + [c])[1..] == cs[1..] + [c];
      var t := ExecuteCommand(lockSet, cs[0]);
      if t.Some? {
        ReplayFromAppend(t.value, cs[1..], c);
      }
    }
  }

  lemma {:induction false} ReplayIsForward(cs: seq<Command>)
    ensures Replay(cs) == ReplayFrom([], cs)
  {
    if cs != [] {
      var before, c := cs[..|cs| - 1], cs[|cs| - 1];
      ReplayIsForward(before);
      ReplayFromAppend([], before, c);
      assert cs == before + [c];
    }
  }

  lemma FirstLogLine(log: seq<LogEntry>)
    requires log != []
    ensures Lines(PrintLog(log)) == [PrintEntry(log[0]) + "\n"] + Lines(PrintLog(log[1..]))
  {
    EntryIsLine(log[0]);
    FirstOfLines(PrintEntry(log[0]), PrintLog(log[1..]));
  }

  /** One line of the checker is one command of the executor. */
  lemma LineIsCommand(e: LogEntry, lines: seq<string>, lockSet: seq<int>)
    requires lines != [] && lines[0] == PrintEntry(e) + "\n"
    ensures var t := ExecuteCommand(lockSet, CommandOf(e.value));
      ValidateLines(lines, lockSet) == Some(true)
      <==> Unsigned(e) && t.Some? && ValidateLines(lines[1..], t.value) == Some(true)
  {
    if Unsigned(e) {
      UnsignedLineParses(e);
      assert KindText(LOCK) == "lock" && KindText(UNLOCK) == "unlock" && KindText(NONE) == "none";
    } else {
      SignedLineFails(e);
    }
  }

  lemma LogSplits(log: seq<LogEntry>)
    requires log != []
    ensures CommandsOf(log) == [CommandOf(log[0].value)] + CommandsOf(log[1..])
    ensures AllUnsigned(log) <==> Unsigned(log[0]) && AllUnsigned(log[1..])
  {
    forall i | 0 <= i < |log| && AllUnsigned(log[1..]) && Unsigned(log[0])
      ensures Unsigned(log[i])
    {
      assert i == 0 || log[i] == log[1..][i - 1];
    }
  }

  lemma ReplaySplits(lockSet: seq<int>, c: Command, cs: seq<Command>)
    ensures ReplayFrom(lockSet, [c] + cs) ==
      match ExecuteCommand(lockSet, c)
      case None => None
      case Some(t) => ReplayFrom(t, cs)
  {
    assert ([c] + cs)[1..] == cs;
  }

  lemma {:induction false} ValidateIsReplay(log: seq<LogEntry>, lockSet: seq<int>)
    ensures ValidateLines(Lines(PrintLog(log)), lockSet) == Some(true)
       <==> ReplayFrom(lockSet, CommandsOf(log)).Some? && AllUnsigned(log)
    decreases |log|
  {
    if log != [] {
      var c := CommandOf(log[0].value);
      FirstLogLine(log);
      LogSplits(log);
      LineIsCommand(log[0], Lines(PrintLog(log)), lockSet);
      ReplaySplits(lockSet, c, CommandsOf(log[1..]));
      var t := ExecuteCommand(lockSet, c);
      if t.Some? {
        ValidateIsReplay(log[1..], t.value);
      }
    }
  }

  /** The checker agrees with the executor: it accepts a printed log exactly when the
      log replays on an empty table without a failed assertion and holds no negative id. */
  lemma CheckerAcceptsExactly(log: seq<LogEntry>)
    ensures Accepts(PrintLog(log)) <==> Replay(CommandsOf(log)).Some? && AllUnsigned(log)
  {
    ReplayIsForward(CommandsOf(log));
    ValidateIsReplay(log, []);
  }

  /** A one-entry log that executes but that the checker rejects. */
  lemma NegativeResourceIsRejected()
    ensures var log := [LogEntry(0, Value(Cmd(Command(LOCK, -1)), Some(0)))];
      Replay(CommandsOf(log)) == Some([-1]) && !Accepts(PrintLog(log))
  {
    var log := [LogEntry(0, Value(Cmd(Command(LOCK, -1)), Some(0)))];
    CheckerAcceptsExactly(log);
    assert !Unsigned(log[0]);
    ReplayAppend([], Command(LOCK, -1));
    assert Replay([]) == Some([]) && [] + [-1] == [-1];
    assert CommandsOf(log) == [] + [Command(LOCK, -1)];
  }
}
