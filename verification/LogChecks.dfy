/** What the checkers say about the logs that the servers really write. */
module LogChecks {
  import opened Options
  import opened Commands
  import opened Proposers
  import opened Cluster
  import opened Consensus
  import opened Replicas
  import opened Clients
  import opened Text
  import opened LogFiles

  // ---------------------------------------------------------------------
  // Comparing two logs
  // ---------------------------------------------------------------------

  /** The instance of a line and its command printed again; None when the line or its
      instance does not parse. */
  type Record = Option<(int, string)>

  function ReadLine(line: string): Record {
    match ParseLine(line)
    case None => None
    case Some(p) =>
      match ParseInt(p.instance)
      case None => None
      case Some(i) => Some((i, p.kind + " " + PrintInt(p.resource)))
  }

  function ReadLines(lines: seq<string>): seq<Record> {
    if lines == [] then [] else [ReadLine(lines[0])] + ReadLines(lines[1..])
  }

  function ReadLog(file: string): seq<Record> {
    ReadLines(Lines(file))
  }

  /** The command of every instance of a log; None when a line does not parse or an
      instance occurs twice. */
  function LoadLog(records: seq<Record>, cmdList: map<int, string>): Option<map<int, string>>
    decreases |records|
  {
    if records == [] then Some(cmdList)
    else if records[0] == None || records[0].value.0 in cmdList then None
    else LoadLog(records[1..], cmdList[records[0].value.0 := records[0].value.1])
  }

  predicate AllRead(records: seq<Record>) {
    forall k :: 0 <= k < |records| ==> records[k].Some?
  }

  /** No two lines are for one instance. */
  predicate NoRepeats(records: seq<Record>) {
    forall i, j :: 0 <= i < j < |records| && records[i].Some? && records[j].Some? ==>
      records[i].value.0 != records[j].value.0
  }

  /** cmdList says exactly what the records say. */
  ghost predicate SaysExactly(cmdList: map<int, string>, records: seq<Record>) {
    forall i, entry :: i in cmdList && cmdList[i] == entry <==> Some((i, entry)) in records
  }

  /** cmdList without repetition: it is new to every record. */
  predicate NewTo(cmdList: map<int, string>, records: seq<Record>) {
    forall k :: 0 <= k < |records| && records[k].Some? ==> records[k].value.0 !in cmdList
  }

  lemma {:induction false} LoadSucceedsExactly(records: seq<Record>, cmdList: map<int, string>)
    ensures LoadLog(records, cmdList).Some? <==> AllRead(records) && NoRepeats(records) && NewTo(cmdList, records)
    decreases |records|
  {
    if records != [] {
      var rest := records[1..];
      if records[0].Some? {
        var next := cmdList[records[0].value.0 := records[0].value.1];
        LoadSucceedsExactly(rest, next);
        assert forall k :: 1 <= k < |records| ==> records[k] == rest[k - 1];
        assert AllRead(records) <==> AllRead(rest);
        NoRepeatsSplit(records);
        assert NewTo(next, rest) <==> NewTo(cmdList, rest) && NewTo(map[records[0].value.0 := ""], rest);
        assert NewTo(cmdList, records) <==> records[0].value.0 !in cmdList && NewTo(cmdList, rest);
      }
    }
  }

  lemma NoRepeatsSplit(records: seq<Record>)
    requires records != [] && records[0].Some?
    ensures NoRepeats(records) <==> NoRepeats(records[1..]) && NewTo(map[records[0].value.0 := ""], records[1..])
  {
    var rest := records[1..];
    assert forall k :: 0 <= k < |rest| ==> rest[k] == records[k + 1];
    if NoRepeats(rest) && NewTo(map[records[0].value.0 := ""], rest) {
      forall i, j | 0 <= i < j < |records| && records[i].Some? && records[j].Some?
        ensures records[i].value.0 != records[j].value.0
      {
        assert records[j] == rest[j - 1];
        assert i > 0 ==> records[i] == rest[i - 1];
      }
    }
    if NoRepeats(records) {
      forall k | 0 <= k < |rest| && rest[k].Some?
        ensures rest[k].value.0 != records[0].value.0
      {
        assert rest[k] == records[k + 1];
      }
      forall i, j | 0 <= i < j < |rest| && rest[i].Some? && rest[j].Some?
        ensures rest[i].value.0 != rest[j].value.0
      {
        assert rest[i] == records[i + 1] && rest[j] == records[j + 1];
      }
    }
  }

  lemma {:induction false} LoadSays(records: seq<Record>, cmdList: map<int, string>, i: int, entry: string)
    requires LoadLog(records, cmdList).Some?
    ensures var m := LoadLog(records, cmdList).value;
      i in m && m[i] == entry <==> (i in cmdList && cmdList[i] == entry) || Some((i, entry)) in records
    decreases |records|
  {
    if records != [] {
      LoadSays(records[1..], cmdList[records[0].value.0 := records[0].value.1], i, entry);
      assert records == [records[0]] + records[1..];
    }
  }

  /** A log loads if and only if every line and every instance parses and no instance
      occurs twice; what is loaded then says of every instance what its line says, and
      nothing else. */
  lemma LoadLogExactly(records: seq<Record>)
    ensures LoadLog(records, map[]).Some? <==> AllRead(records) && NoRepeats(records)
    ensures LoadLog(records, map[]).Some? ==> SaysExactly(LoadLog(records, map[]).value, records)
  {
    LoadSucceedsExactly(records, map[]);
    if LoadLog(records, map[]).Some? {
      forall i, entry
        ensures i in LoadLog(records, map[]).value && LoadLog(records, map[]).value[i] == entry
           <==> Some((i, entry)) in records
      {
        LoadSays(records, map[], i, entry);
      }
    }
  }

  /** The record says what the loaded log says about its instance. */
  predicate Confirms(r: Record, cmdList: map<int, string>) {
    r.Some? && r.value.0 in cmdList && cmdList[r.value.0] == r.value.1
  }

  predicate MatchesLog(records: seq<Record>, cmdList: map<int, string>) {
    forall k :: 0 <= k < |records| ==> Confirms(records[k], cmdList)
  }

  /** The longest log loads and every other log matches it. */
  predicate ReplicationCheck(longest: seq<Record>, others: seq<seq<Record>>) {
    var cmdList := LoadLog(longest, map[]);
    cmdList.Some? && forall f :: 0 <= f < |others| ==> MatchesLog(others[f], cmdList.value)
  }

  /** When the replication check refuses: the longest log does not load, or another log
      has a line that is not, instance and command, in the longest. */
  lemma ReplicationCheckExactly(longest: seq<Record>, others: seq<seq<Record>>)
    ensures ReplicationCheck(longest, others) <==>
      && AllRead(longest) && NoRepeats(longest)
      && forall f, k :: 0 <= f < |others| && 0 <= k < |others[f]| ==> others[f][k].Some? && others[f][k] in longest
  {
    LoadLogExactly(longest);
    if LoadLog(longest, map[]).Some? {
      var m := LoadLog(longest, map[]).value;
      forall f, k | 0 <= f < |others| && 0 <= k < |others[f]|
        ensures Confirms(others[f][k], m) <==> others[f][k].Some? && others[f][k] in longest
      {
        if others[f][k].Some? {
          var (i, entry) := others[f][k].value;
          assert others[f][k] == Some((i, entry));
        }
      }
    }
  }

  /** Loads the reference log. */
  method LoadInstances(longest: seq<Record>) returns (r: Option<map<int, string>>)
    ensures r == LoadLog(longest, map[])
    ensures r.Some? <==> AllRead(longest) && NoRepeats(longest)
    ensures r.Some? ==> SaysExactly(r.value, longest)
  {
    LoadLogExactly(longest);
    var cmdList: map<int, string> := map[];
    var k := 0;
    assert longest[0..] == longest;
    while k < |longest|
      invariant 0 <= k <= |longest|
      invariant LoadLog(longest, map[]) == LoadLog(longest[k..], cmdList)
    {
      if longest[k] == None || longest[k].value.0 in cmdList {
        return None;
      }
      cmdList := cmdList[longest[k].value.0 := longest[k].value.1];
      assert longest[k..][1..] == longest[k + 1..];
      k := k + 1;
    }
    r := Some(cmdList);
  }

  /** The part of validate_client_file that compares the shorter logs to the longest. */
  method ValidateReplicas(longest: seq<Record>, others: seq<seq<Record>>) returns (ok: bool)
    ensures ok <==> ReplicationCheck(longest, others)
  {
    var cmdList := LoadInstances(longest);
    if cmdList == None {
      return false;
    }
    var f := 0;
    while f < |others|
      invariant 0 <= f <= |others|
      invariant forall g :: 0 <= g < f ==> MatchesLog(others[g], cmdList.value)
    {
      var k := 0;
      while k < |others[f]|
        invariant 0 <= k <= |others[f]|
        invariant MatchesLog(others[f][..k], cmdList.value)
      {
        if !Confirms(others[f][k], cmdList.value) {
          assert !MatchesLog(others[f], cmdList.value);
          return false;
        }
        k := k + 1;
      }
      f := f + 1;
    }
    ok := true;
  }

  predicate GapFree(log: seq<LogEntry>) {
    forall j :: 0 <= j < |log| ==> log[j].instance == j
  }

  /** The records are those of a gap-free log. */
  predicate Records(records: seq<Record>, log: seq<LogEntry>) {
    |records| == |log| && forall j :: 0 <= j < |log| ==> records[j] == Some((j, PrintCommand(CommandOf(log[j].value))))
  }

  lemma LineReads(e: LogEntry)
    requires Unsigned(e)
    ensures ReadLine(PrintEntry(e) + "\n") == Some((e.instance, PrintCommand(CommandOf(e.value))))
  {
    UnsignedLineParses(e);
  }

  lemma {:induction false} PrintedLogReads(log: seq<LogEntry>)
    requires AllUnsigned(log)
    ensures var records := ReadLog(PrintLog(log));
      && |records| == |log|
      && forall j :: 0 <= j < |log| ==> records[j] == Some((log[j].instance, PrintCommand(CommandOf(log[j].value))))
  {
    if log != [] {
      FirstLogLine(log);
      LineReads(log[0]);
      PrintedLogReads(log[1..]);
      var lines := Lines(PrintLog(log));
      assert lines[0] == PrintEntry(log[0]) + "\n" && lines[1..] == Lines(PrintLog(log[1..]));
      assert ReadLog(PrintLog(log)) == [ReadLine(lines[0])] + ReadLog(PrintLog(log[1..]));
    }
  }

  lemma PrintedRecords(log: seq<LogEntry>)
    requires AllUnsigned(log) && GapFree(log)
    ensures Records(ReadLog(PrintLog(log)), log)
  {
    PrintedLogReads(log);
  }

  /** cmdList holds exactly the first k commands of a log. */
  ghost predicate Loaded(log: seq<LogEntry>, k: nat, cmdList: map<int, string>)
    requires k <= |log|
  {
    && (forall j :: j in cmdList <==> 0 <= j < k)
    && (forall j :: 0 <= j < k ==> cmdList[j] == PrintCommand(CommandOf(log[j].value)))
  }

  lemma {:induction false} LoadingSucceeds(records: seq<Record>, log: seq<LogEntry>, k: nat, cmdList: map<int, string>)
    requires Records(records, log) && k <= |log| && Loaded(log, k, cmdList)
    ensures var r := LoadLog(records[k..], cmdList);
      r.Some? && Loaded(log, |log|, r.value)
    decreases |log| - k
  {
    if k < |log| {
      assert records[k..][0] == records[k] && records[k..][1..] == records[k + 1..];
      LoadingSucceeds(records, log, k + 1, cmdList[k := PrintCommand(CommandOf(log[k].value))]);
    }
  }

  /** For gap-free logs the check passes exactly when the commands of the other log are
      a prefix of those of the longest. */
  lemma ReplicationCheckIsPrefix(ra: seq<Record>, a: seq<LogEntry>, rb: seq<Record>, b: seq<LogEntry>)
    requires Records(ra, a) && Records(rb, b)
    ensures ReplicationCheck(ra, [rb]) <==> CommandsOf(b) <= CommandsOf(a)
  {
    assert ra[0..] == ra;
    LoadingSucceeds(ra, a, 0, map[]);
    var cmdList := LoadLog(ra, map[]).value;
    var ca, cb := CommandsOf(a), CommandsOf(b);
    assert ReplicationCheck(ra, [rb]) <==> MatchesLog([rb][0], cmdList);
    forall j | 0 <= j < |b|
      ensures Confirms(rb[j], cmdList) <==> j < |a| && ca[j] == cb[j]
    {
      if j < |a| && PrintCommand(ca[j]) == PrintCommand(cb[j]) {
        PrintingIsInjective(ca[j], cb[j]);
      }
    }
    if MatchesLog(rb, cmdList) {
      assert b != [] ==> Confirms(rb[|b| - 1], cmdList);
      assert cb == ca[..|b|];
    }
  }

  // ---------------------------------------------------------------------
  // The logs of a cluster
  // ---------------------------------------------------------------------

  lemma CoherentLogReplays(q: Proposer)
    requires LogCoherent(q)
    ensures Replay(CommandsOf(q.log)).Some? <==> !q.halted
  {
    if q.halted {
      LockTableAppend(q.log[..q.instance], q.log[q.instance]);
      assert q.log == q.log[..q.instance] + [q.log[q.instance]];
    } else {
      assert q.log[..q.instance] == q.log;
    }
  }

  /** In every run the checker accepts a server's log exactly when the server did not
      stop on a refused command and no logged id is negative. */
  lemma {:induction false} ServerLogsPass(c: Config, r: Run, p: nat)
    requires c.n > 0 && Valid(c, r) && p < c.n
    ensures |Final(c, r).proposers| == c.n
    ensures var q := Final(c, r).proposers[p];
      Accepts(PrintLog(q.log)) <==> !q.halted && AllUnsigned(q.log)
  {
    ReplicaInvAlways(c, r);
    assert LogSound(c, Final(c, r), p);
    CoherentLogReplays(Final(c, r).proposers[p]);
    CheckerAcceptsExactly(Final(c, r).proposers[p].log);
  }

  /** With disciplined clients, each at a server of its own, every log passes the
      checker as soon as its ids are not negative. */
  lemma {:induction false} DisciplinedLogsPass(c: Config, r: Run, home: map<int, nat>, p: nat)
    requires c.n > 0 && Safe(c.variant) && Valid(c, r) && Homed(home, r) && Disciplined(c, r) && p < c.n
    ensures |Final(c, r).proposers| == c.n
    ensures var q := Final(c, r).proposers[p]; Accepts(PrintLog(q.log)) <==> AllUnsigned(q.log)
  {
    UnlockSafety(c, r, home, p);
    ServerLogsPass(c, r, p);
  }

  /** In every run the log files of any two servers pass the replication check, the
      longer one taken as the reference. */
  lemma {:induction false} ReplicaLogsMatch(c: Config, r: Run, p: nat, q: nat)
    requires c.n > 0 && Safe(c.variant) && Valid(c, r) && p < c.n && q < c.n
    requires |Final(c, r).proposers| == c.n
    requires AllUnsigned(Final(c, r).proposers[p].log) && AllUnsigned(Final(c, r).proposers[q].log)
    requires |Final(c, r).proposers[q].log| <= |Final(c, r).proposers[p].log|
    ensures ReplicationCheck(ReadLog(PrintLog(Final(c, r).proposers[p].log)),
                             [ReadLog(PrintLog(Final(c, r).proposers[q].log))])
  {
    ReplicaConsistency(c, r, p, q);
    ReplicaConsistency(c, r, q, p);
    PrefixLogsMatch(Final(c, r).proposers[p].log, Final(c, r).proposers[q].log);
  }

  lemma PrefixLogsMatch(a: seq<LogEntry>, b: seq<LogEntry>)
    requires AllUnsigned(a) && AllUnsigned(b) && GapFree(a) && b <= a
    ensures ReplicationCheck(ReadLog(PrintLog(a)), [ReadLog(PrintLog(b))])
  {
    assert forall j :: 0 <= j < |b| ==> b[j] == a[j];
    PrintedRecords(a);
    PrintedRecords(b);
    assert CommandsOf(b) == CommandsOf(a)[..|b|];
    ReplicationCheckIsPrefix(ReadLog(PrintLog(a)), a, ReadLog(PrintLog(b)), b);
  }
}
