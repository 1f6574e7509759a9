/** Lock-service commands and the replicated lock table they are executed on. */
module Commands {
  import opened Options

  datatype CommandType = LOCK | UNLOCK | NONE

  datatype Command = Command(kind: CommandType, resource: int)

  /** list.remove: drops the first occurrence of r. */
  function RemoveFirst(s: seq<int>, r: int): (t: seq<int>)
    ensures forall x :: x in t ==> x in s
    ensures forall x :: x in s && x != r ==> x in t
  {
    if s == [] then []
    else if s[0] == r then s[1..]
    else [s[0]] + RemoveFirst(s[1..], r)
  }

  /** Exactly the first occurrence goes, and the order of the rest stays. */
  lemma {:induction false} RemoveFirstCuts(s: seq<int>, r: int) returns (i: nat)
    ensures r in s <==> i < |s|
    ensures r !in s ==> RemoveFirst(s, r) == s
    ensures r in s ==> s[i] == r && r !in s[..i] && RemoveFirst(s, r) == s[..i] + s[i + 1..]
  {
    if s == [] || s[0] == r {
      i := 0;
    } else {
      var k := RemoveFirstCuts(s[1..], r);
      i := k + 1;
      if r in s[1..] {
        assert s[..i] == [s[0]] + s[1..][..k] && s[i + 1..] == s[1..][k + 1..];
      } else {
        assert s == [s[0]] + s[1..];
      }
    }
  }

  ghost predicate NoDuplicates(s: seq<int>) {
    forall i, j :: 0 <= i < j < |s| ==> s[i] != s[j]
  }

  lemma {:induction false} RemoveFirstKeepsDistinct(s: seq<int>, r: int)
    requires NoDuplicates(s)
    ensures NoDuplicates(RemoveFirst(s, r))
    ensures r !in RemoveFirst(s, r)
  {
    if s != [] && s[0] != r {
      RemoveFirstKeepsDistinct(s[1..], r);
      assert s[0] !in s[1..];
      assert s[0] !in RemoveFirst(s[1..], r);
    }
  }

  /** execute_command on the lock table; None when one of its assertions fails. */
  function ExecuteCommand(lockSet: seq<int>, c: Command): (r: Option<seq<int>>)
  {
    match c.kind
    case LOCK =>
      if c.resource in lockSet then None else Some(lockSet + [c.resource])
    case UNLOCK =>
      if c.resource !in lockSet then None
      else
        var left := RemoveFirst(lockSet, c.resource);
        if c.resource in left then None else Some(left)
    case NONE => None
  }

  /** The lock table after executing a whole sequence of commands, starting empty. */
  function Replay(cs: seq<Command>): (r: Option<seq<int>>)
  {
    if cs == [] then Some([])
    else
      match Replay(cs[..|cs| - 1])
      case None => None
      case Some(lockSet) => ExecuteCommand(lockSet, cs[|cs| - 1])
  }

  lemma {:induction false} ReplayKeepsDistinct(cs: seq<Command>)
    ensures Replay(cs).Some? ==> NoDuplicates(Replay(cs).value)
  {
    if cs != [] {
      ReplayKeepsDistinct(cs[..|cs| - 1]);
      var before := Replay(cs[..|cs| - 1]);
      if before.Some? && cs[|cs| - 1].kind.UNLOCK? {
        RemoveFirstKeepsDistinct(before.value, cs[|cs| - 1].resource);
      }
    }
  }

  lemma ReplayAppend(cs: seq<Command>, c: Command)
    ensures Replay(cs + [c]) ==
      match Replay(cs)
      case None => None
      case Some(lockSet) => ExecuteCommand(lockSet, c)
  {
    assert (cs + [c])[..|cs|] == cs;
  }

  /** On a reachable lock table a command fails exactly when it locks a held
      resource, unlocks a free one, or is neither a lock nor an unlock. */
  lemma ExecuteFailsExactlyWhen(cs: seq<Command>, c: Command)
    requires Replay(cs).Some?
    ensures var held := Replay(cs).value;
      ExecuteCommand(held, c).None? <==>
        (c.kind.LOCK? && c.resource in held) || (c.kind.UNLOCK? && c.resource !in held) || c.kind.NONE?
  {
    ReplayKeepsDistinct(cs);
    RemoveFirstKeepsDistinct(Replay(cs).value, c.resource);
  }
}
