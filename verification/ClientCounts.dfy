/** The part of the log checker that counts the clients' commands. */
module ClientCounts {
  import opened Options
  import opened Commands
  import opened Proposers
  import opened Cluster
  import opened Consensus
  import opened Replicas
  import opened Clients
  import opened RealTime
  import opened Text
  import opened LogFiles
  import opened LogChecks
  import opened CommandFiles

  // ---------------------------------------------------------------------
  // The check
  // ---------------------------------------------------------------------

  /** The commands of a log, printed again. */
  function Entries(records: seq<Record>): seq<string>
    requires AllRead(records)
  {
    seq(|records|, (k: nat) requires k < |records| => records[k].value.1)
  }

  function Stripped(lines: seq<string>): seq<string> {
    if lines == [] then [] else [Strip(lines[0], " \t\n")] + Stripped(lines[1..])
  }

  /** The lines of all client files. */
  function ClientLines(files: seq<string>): seq<string> {
    if files == [] then [] else Stripped(Lines(files[0])) + ClientLines(files[1..])
  }

  /** Every line of the clients occurs as often in the log. */
  predicate CountsAgree(server: seq<string>, clients: seq<string>) {
    forall k :: 0 <= k < |clients| ==> multiset(clients)[clients[k]] == multiset(server)[clients[k]]
  }

  predicate ClientCheck(longest: seq<Record>, clients: seq<string>) {
    LoadLog(longest, map[]).Some? && AllRead(longest) && CountsAgree(Entries(longest), clients)
  }

  /** The positions of a line. */
  function Places(lines: seq<string>, line: string): set<nat> {
    set k: nat | k < |lines| && lines[k] == line
  }

  lemma {:induction false} PlacesCount(lines: seq<string>, line: string)
    ensures multiset(lines)[line] == |Places(lines, line)|
  {
    if lines != [] {
      var init, last := lines[..|lines| - 1], |lines| - 1;
      PlacesCount(init, line);
      assert lines == init + [lines[last]];
      assert Places(lines, line) == Places(init, line) + if lines[last] == line then {last} else {};
    }
  }

  /** The positions of a command in a log that was read. */
  function PlacesInLog(longest: seq<Record>, line: string): set<nat> {
    set k: nat | k < |longest| && longest[k].Some? && longest[k].value.1 == line
  }

  /** When the counting check accepts: the lines of the log and their instances parse, no
      instance occurs twice, and every line of the clients is there as often. */
  lemma ClientCheckExactly(longest: seq<Record>, clients: seq<string>)
    ensures ClientCheck(longest, clients) <==>
      && AllRead(longest) && NoRepeats(longest)
      && forall line :: line in clients ==> |Places(clients, line)| == |PlacesInLog(longest, line)|
  {
    LoadLogExactly(longest);
    if AllRead(longest) {
      forall line
        ensures multiset(clients)[line] == |Places(clients, line)|
        ensures multiset(Entries(longest))[line] == |PlacesInLog(longest, line)|
      {
        PlacesCount(clients, line);
        PlacesCount(Entries(longest), line);
        assert Places(Entries(longest), line) == PlacesInLog(longest, line);
      }
    }
  }

  /** dist holds how often each line occurs, and nothing else. */
  predicate IsTally(dist: map<string, nat>, lines: seq<string>) {
    && (forall t :: t in dist ==> t in lines && dist[t] == multiset(lines)[t])
    && (forall k :: 0 <= k < |lines| ==> lines[k] in dist)
  }

  /** A dictionary of counts, built line by line. */
  method TallyLines(lines: seq<string>) returns (dist: map<string, nat>)
    ensures IsTally(dist, lines)
  {
    dist := map[];
    var k := 0;
    while k < |lines|
      invariant 0 <= k <= |lines|
      invariant IsTally(dist, lines[..k])
    {
      var t := lines[k];
      assert lines[..k + 1] == lines[..k] + [t];
      assert t in dist ==> t in lines[..k];
      dist := dist[t := if t in dist then dist[t] + 1 else 1];
      k := k + 1;
    }
    assert lines[..k] == lines;
  }

  /** The counting part of validate_client_file. */
  method ValidateClients(longest: seq<Record>, clients: seq<string>) returns (ok: bool)
    ensures ok <==> ClientCheck(longest, clients)
  {
    var loaded := LoadInstances(longest);
    if loaded == None {
      return false;
    }
    LoadLogExactly(longest);
    var entries := Entries(longest);
    var serverDist := TallyLines(entries);
    var clientDist := TallyLines(clients);
    var rest := clientDist.Keys;
    while rest != {}
      invariant rest <= clientDist.Keys
      invariant forall t :: t in clientDist.Keys - rest ==> multiset(clients)[t] == multiset(entries)[t]
      decreases |rest|
    {
      var t :| t in rest;
      assert t in clients;
      if t !in serverDist || clientDist[t] != serverDist[t] {
        assert t !in serverDist ==> t !in entries;
        return false;
      }
      rest := rest - {t};
    }
    ok := true;
  }

  // ---------------------------------------------------------------------
  // Sequences of commands and their texts
  // ---------------------------------------------------------------------

  function Each<A, B>(s: seq<A>, f: A -> B): seq<B> {
    if s == [] then [] else [f(s[0])] + Each(s[1..], f)
  }

  lemma {:induction false} EachConcat<A, B>(a: seq<A>, b: seq<A>, f: A -> B)
    ensures Each(a + b, f) == Each(a, f) + Each(b, f)
  {
    if a == [] {
      assert a + b == b;
    } else {
      var all, rest := a + b, a[1..] + b;
      EachConcat(a[1..], b, f);
      assert all[0] == a[0] && all[1..] == rest;
      assert Each(all, f) == [f(a[0])] + Each(rest, f);
      assert [f(a[0])] + (Each(a[1..], f) + Each(b, f)) == ([f(a[0])] + Each(a[1..], f)) + Each(b, f);
    }
  }

  lemma CutOut<A>(x: A, rest: seq<A>, front: seq<A>, back: seq<A>)
    requires multiset([x] + rest) == multiset(front + [x] + back)
    ensures multiset(rest) == multiset(front + back)
  {
    assert multiset([x] + rest) - multiset{x} == multiset(rest);
    assert multiset(front + [x] + back) - multiset{x} == multiset(front + back);
  }

  lemma EachCutIn<A, B>(x: A, front: seq<A>, back: seq<A>, f: A -> B)
    ensures multiset(Each(front + [x] + back, f)) == multiset{f(x)} + multiset(Each(front + back, f))
  {
    EachConcat(front + [x], back, f);
    EachConcat(front, [x], f);
    EachConcat(front, back, f);
  }

  lemma {:induction false} EachPermute<A, B>(a: seq<A>, b: seq<A>, f: A -> B)
    requires multiset(a) == multiset(b)
    ensures multiset(Each(a, f)) == multiset(Each(b, f))
    decreases |a|
  {
    if a == [] {
      assert |multiset(b)| == 0 && b == [];
    } else {
      assert a[0] in multiset(b);
      var i :| 0 <= i < |b| && b[i] == a[0];
      var front, back := b[..i], b[i + 1..];
      assert b == front + [a[0]] + back && a == [a[0]] + a[1..];
      CutOut(a[0], a[1..], front, back);
      EachPermute(a[1..], front + back, f);
      EachCutIn(a[0], front, back, f);
    }
  }

  function Texts(cs: seq<Command>): seq<string> {
    Each(cs, PrintCommand)
  }

  lemma CommandLine(c: Command)
    ensures Strip(PrintCommand(c) + "\n", " \t\n") == PrintCommand(c)
  {
    CommandText(c);
    StripNewline(PrintCommand(c));
  }

  lemma StrippedFirst(line: string, rest: seq<string>)
    ensures Stripped([line] + rest) == [Strip(line, " \t\n")] + Stripped(rest)
  {
    assert ([line] + rest)[1..] == rest;
  }

  lemma {:induction false} FileLines(cs: seq<Command>)
    ensures Stripped(Lines(PrintFile(cs))) == Texts(cs)
  {
    if cs != [] {
      FileLines(cs[1..]);
      FirstFileLine(cs);
      CommandLine(cs[0]);
      StrippedFirst(PrintCommand(cs[0]) + "\n", Lines(PrintFile(cs[1..])));
    }
  }

  /** The commands of some clients, one client after the other. */
  function Joined(log: seq<LogEntry>, clients: seq<int>): seq<Command> {
    if clients == [] then [] else LoggedFor(log, clients[0]) + Joined(log, clients[1..])
  }

  predicate Distinct(clients: seq<int>) {
    forall i, j :: 0 <= i < j < |clients| ==> clients[i] != clients[j]
  }

  predicate IsFrom(e: LogEntry, clients: seq<int>) {
    e.value.client.Some? && e.value.client.value in clients
  }

  function CountOf(cs: seq<Command>, v: Command): nat {
    multiset(cs)[v]
  }

  lemma CountConcat(a: seq<Command>, b: seq<Command>, v: Command)
    ensures CountOf(a + b, v) == CountOf(a, v) + CountOf(b, v)
  {
  }

  function Once(b: bool): nat {
    if b then 1 else 0
  }

  lemma LoggedCount(log: seq<LogEntry>, e: LogEntry, client: int, v: Command)
    ensures CountOf(LoggedFor(log + [e], client), v)
         == CountOf(LoggedFor(log, client), v) + Once(e.value.client == Some(client) && CommandOf(e.value) == v)
  {
    LoggedForAppend(log, e, client);
  }

  lemma {:induction false} JoinedCount(log: seq<LogEntry>, e: LogEntry, clients: seq<int>, v: Command)
    requires Distinct(clients)
    ensures CountOf(Joined(log + [e], clients), v)
         == CountOf(Joined(log, clients), v) + Once(IsFrom(e, clients) && CommandOf(e.value) == v)
    decreases |clients|
  {
    if clients != [] {
      LoggedCount(log, e, clients[0], v);
      JoinedCount(log, e, clients[1..], v);
      CountConcat(LoggedFor(log + [e], clients[0]), Joined(log + [e], clients[1..]), v);
      CountConcat(LoggedFor(log, clients[0]), Joined(log, clients[1..]), v);
      assert clients[0] !in clients[1..];
      assert IsFrom(e, clients) <==> e.value.client == Some(clients[0]) || IsFrom(e, clients[1..]);
    }
  }

  lemma CommandsCount(log: seq<LogEntry>, e: LogEntry, v: Command)
    ensures CountOf(CommandsOf(log + [e]), v) == CountOf(CommandsOf(log), v) + Once(CommandOf(e.value) == v)
  {
    assert CommandsOf(log + [e]) == CommandsOf(log) + [CommandOf(e.value)];
    CountConcat(CommandsOf(log), [CommandOf(e.value)], v);
  }

  /** A log holds command v as often as its clients do. */
  predicate Even(log: seq<LogEntry>, clients: seq<int>, v: Command) {
    CountOf(CommandsOf(log), v) == CountOf(Joined(log, clients), v)
  }

  lemma EvenNext(log: seq<LogEntry>, e: LogEntry, clients: seq<int>, v: Command)
    requires Distinct(clients) && IsFrom(e, clients) && Even(log, clients, v)
    ensures Even(log + [e], clients, v)
  {
    JoinedCount(log, e, clients, v);
    CommandsCount(log, e, v);
  }

  lemma EvenAtFirst(clients: seq<int>, v: Command)
    ensures Even([], clients, v)
  {
    NothingJoined(clients);
  }

  lemma {:induction false} EvenAlways(log: seq<LogEntry>, k: nat, clients: seq<int>, v: Command)
    requires Distinct(clients) && k <= |log| && forall j :: 0 <= j < |log| ==> IsFrom(log[j], clients)
    ensures Even(log[..k], clients, v)
    decreases k
  {
    if k == 0 {
      EvenAtFirst(clients, v);
      assert log[..0] == [];
    } else {
      EvenAlways(log, k - 1, clients, v);
      EvenNext(log[..k - 1], log[k - 1], clients, v);
      assert log[..k] == log[..k - 1] + [log[k - 1]];
    }
  }

  /** A log whose entries all come from some clients is their commands, interleaved. */
  lemma LogIsJoined(log: seq<LogEntry>, clients: seq<int>)
    requires Distinct(clients) && forall j :: 0 <= j < |log| ==> IsFrom(log[j], clients)
    ensures multiset(CommandsOf(log)) == multiset(Joined(log, clients))
  {
    forall v
      ensures multiset(CommandsOf(log))[v] == multiset(Joined(log, clients))[v]
    {
      EvenAlways(log, |log|, clients, v);
      assert log[..|log|] == log;
    }
  }

  lemma {:induction false} NothingJoined(clients: seq<int>)
    ensures Joined([], clients) == []
  {
    if clients != [] {
      NothingJoined(clients[1..]);
    }
  }

  // ---------------------------------------------------------------------
  // The counts of a cluster
  // ---------------------------------------------------------------------

  /** One file per client, with the commands that it submitted. */
  function FilesOf(r: Run, clients: seq<int>): seq<string> {
    if clients == [] then [] else [PrintFile(Submitted(r, clients[0]))] + FilesOf(r, clients[1..])
  }

  function AllSubmitted(r: Run, clients: seq<int>): seq<Command> {
    if clients == [] then [] else Submitted(r, clients[0]) + AllSubmitted(r, clients[1..])
  }

  lemma {:induction false} LinesOfFiles(r: Run, clients: seq<int>)
    ensures ClientLines(FilesOf(r, clients)) == Texts(AllSubmitted(r, clients))
  {
    if clients != [] {
      LinesOfFiles(r, clients[1..]);
      FileLines(Submitted(r, clients[0]));
      EachConcat(Submitted(r, clients[0]), AllSubmitted(r, clients[1..]), PrintCommand);
      var files := FilesOf(r, clients);
      assert files[0] == PrintFile(Submitted(r, clients[0])) && files[1..] == FilesOf(r, clients[1..]);
    }
  }

  /** The clients that took part, and that all were answered. */
  ghost predicate Finished(c: Config, r: Run, home: map<int, nat>, clients: seq<int>)
    requires Valid(c, r)
  {
    && Distinct(clients)
    && (forall client :: Submitted(r, client) != [] ==> client in clients)
    && (forall client :: client in clients ==>
          && client in home && home[client] < c.n && home[client] < |Final(c, r).proposers|
          && Pending(Final(c, r).proposers[home[client]], client) == [])
  }

  /** No log is longer than that of server l. */
  ghost predicate IsLongest(c: Config, r: Run, l: nat)
    requires Valid(c, r)
  {
    && l < c.n && l < |Final(c, r).proposers|
    && forall p :: 0 <= p < |Final(c, r).proposers| ==>
         |Final(c, r).proposers[p].log| <= |Final(c, r).proposers[l].log|
  }

  /** The longest log holds all that a client has submitted once the client is answered. */
  lemma LongestHoldsAll(c: Config, r: Run, home: map<int, nat>, l: nat, client: int)
    requires c.n > 0 && Safe(c.variant) && Valid(c, r) && Homed(home, r) && IsLongest(c, r, l)
    requires client in home && home[client] < c.n && home[client] < |Final(c, r).proposers|
    requires Pending(Final(c, r).proposers[home[client]], client) == []
    ensures LoggedFor(Final(c, r).proposers[l].log, client) == Submitted(r, client)
  {
    var s := Final(c, r);
    var h, log := s.proposers[home[client]].log, s.proposers[l].log;
    AcksFollowSubmissions(c, r, home, client);
    ExactlyOnceInOrder(c, r, home, client);
    LogsFollowSubmissions(c, r, home, client, l);
    ReplicaInvAlways(c, r);
    LogsAgree(c, s, home[client], l, |h|);
    assert h[..|h|] == h;
    LoggedForPrefix(log, |h|, client);
  }

  lemma EntriesAreFromClients(c: Config, r: Run, home: map<int, nat>, clients: seq<int>, l: nat, j: nat)
    requires c.n > 0 && Safe(c.variant) && Valid(c, r) && Homed(home, r) && Finished(c, r, home, clients)
    requires l < c.n && l < |Final(c, r).proposers| && j < |Final(c, r).proposers[l].log|
    ensures IsFrom(Final(c, r).proposers[l].log[j], clients)
  {
    OnceInvAlways(c, r, home);
    EntryFromHome(c, Final(c, r), home, l, j);
    var e := Final(c, r).proposers[l].log[j];
    EarlySubmission(c, r, home, l, j, e.value.client.value);
  }

  lemma {:induction false} JoinedIsSubmitted(c: Config, r: Run, home: map<int, nat>, l: nat, clients: seq<int>)
    requires c.n > 0 && Safe(c.variant) && Valid(c, r) && Homed(home, r) && IsLongest(c, r, l)
    requires forall client :: client in clients ==>
      && client in home && home[client] < c.n && home[client] < |Final(c, r).proposers|
      && Pending(Final(c, r).proposers[home[client]], client) == []
    ensures Joined(Final(c, r).proposers[l].log, clients) == AllSubmitted(r, clients)
    decreases |clients|
  {
    if clients != [] {
      LongestHoldsAll(c, r, home, l, clients[0]);
      JoinedIsSubmitted(c, r, home, l, clients[1..]);
    }
  }

  lemma RecordsAreTexts(records: seq<Record>, log: seq<LogEntry>)
    requires Records(records, log)
    ensures AllRead(records) && Entries(records) == Texts(CommandsOf(log))
  {
    TextsAt(CommandsOf(log));
  }

  lemma {:induction false} TextsAt(cs: seq<Command>)
    ensures |Texts(cs)| == |cs| && forall k :: 0 <= k < |cs| ==> Texts(cs)[k] == PrintCommand(cs[k])
  {
    if cs != [] {
      TextsAt(cs[1..]);
    }
  }

  /** When every client has been answered, the longest log holds each command as often as
      the client files do, so the counting check passes, unless an id is negative. */
  lemma {:induction false} FinishedClientsPass(c: Config, r: Run, home: map<int, nat>, clients: seq<int>, l: nat)
    requires c.n > 0 && Safe(c.variant) && Valid(c, r) && Homed(home, r)
    requires Finished(c, r, home, clients) && IsLongest(c, r, l)
    requires AllUnsigned(Final(c, r).proposers[l].log)
    ensures ClientCheck(ReadLog(PrintLog(Final(c, r).proposers[l].log)), ClientLines(FilesOf(r, clients)))
  {
    var log := Final(c, r).proposers[l].log;
    var records := ReadLog(PrintLog(log));
    ReplicaConsistency(c, r, l, l);
    PrintedRecords(log);
    assert records[0..] == records;
    LoadingSucceeds(records, log, 0, map[]);
    RecordsAreTexts(records, log);
    forall j: nat | j < |log|
      ensures IsFrom(log[j], clients)
    {
      EntriesAreFromClients(c, r, home, clients, l, j);
    }
    LogIsJoined(log, clients);
    JoinedIsSubmitted(c, r, home, l, clients);
    EachPermute(CommandsOf(log), AllSubmitted(r, clients), PrintCommand);
    LinesOfFiles(r, clients);
  }
}
