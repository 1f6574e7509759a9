/** The lock table after any sequence of commands, told by the commands alone. */
module LockTables {
  import opened Commands

  /** Command j locks x. */
  predicate LocksAt(cs: seq<Command>, j: nat, x: int) {
    j < |cs| && cs[j] == Command(LOCK, x)
  }

  /** Command j locks x, and no later command unlocks it. */
  predicate HoldsFrom(cs: seq<Command>, j: nat, x: int) {
    LocksAt(cs, j, x) && forall k :: j < k < |cs| ==> cs[k] != Command(UNLOCK, x)
  }

  ghost predicate Held(cs: seq<Command>, x: int) {
    exists j :: HoldsFrom(cs, j, x)
  }

  /** Command d may follow cs: it locks what is free or unlocks what is held. */
  ghost predicate Allowed(cs: seq<Command>, d: Command) {
    (d.kind.LOCK? && !Held(cs, d.resource)) || (d.kind.UNLOCK? && Held(cs, d.resource))
  }

  ghost predicate AllAllowed(cs: seq<Command>) {
    forall k :: 0 <= k < |cs| ==> Allowed(cs[..k], cs[k])
  }

  /** The table holds what is locked, in the order of the commands that locked it:
      at[i] is the position of the command behind table[i]. */
  ghost predicate Lists(cs: seq<Command>, table: seq<int>, at: seq<nat>) {
    && |at| == |table|
    && (forall i, j :: 0 <= i < j < |at| ==> at[i] < at[j])
    && (forall i :: 0 <= i < |at| ==> HoldsFrom(cs, at[i], table[i]))
    && (forall x :: Held(cs, x) ==> x in table)
  }

  // ---------------------------------------------------------------------
  // One more command
  // ---------------------------------------------------------------------

  lemma HoldsAfter(cs: seq<Command>, d: Command, j: nat, x: int)
    ensures HoldsFrom(cs + [d], j, x) <==>
      (HoldsFrom(cs, j, x) && d != Command(UNLOCK, x)) || (j == |cs| && d == Command(LOCK, x))
  {
    var all := cs + [d];
    assert all[|cs|] == d && forall k :: 0 <= k < |cs| ==> all[k] == cs[k];
    if HoldsFrom(all, j, x) && j < |cs| {
      assert all[j] == cs[j] && all[|cs|] != Command(UNLOCK, x);
      forall k | j < k < |cs|
        ensures cs[k] != Command(UNLOCK, x)
      {
        assert all[k] == cs[k];
      }
    }
  }

  lemma HeldAfterCommand(cs: seq<Command>, d: Command, x: int)
    ensures Held(cs + [d], x) <==> (Held(cs, x) && d != Command(UNLOCK, x)) || d == Command(LOCK, x)
  {
    if j: nat :| HoldsFrom(cs + [d], j, x) {
      HoldsAfter(cs, d, j, x);
    }
    if j: nat :| HoldsFrom(cs, j, x) {
      HoldsAfter(cs, d, j, x);
    }
    HoldsAfter(cs, d, |cs|, x);
  }

  lemma LocksNext(cs: seq<Command>, table: seq<int>, at: seq<nat>, x: int)
    requires Lists(cs, table, at)
    ensures Lists(cs + [Command(LOCK, x)], table + [x], at + [|cs|])
  {
    var d := Command(LOCK, x);
    forall i | 0 <= i < |at| + 1
      ensures HoldsFrom(cs + [d], (at + [|cs|])[i], (table + [x])[i])
    {
      HoldsAfter(cs, d, (at + [|cs|])[i], (table + [x])[i]);
    }
    forall y | Held(cs + [d], y)
      ensures y in table + [x]
    {
      HeldAfterCommand(cs, d, y);
    }
  }

  lemma OthersStay(table: seq<int>, k: nat)
    requires k < |table|
    ensures forall y :: y in table && y != table[k] ==> y in table[..k] + table[k + 1..]
  {
    forall y | y in table && y != table[k]
      ensures y in table[..k] + table[k + 1..]
    {
      var i :| 0 <= i < |table| && table[i] == y;
      assert i < k || table[k + 1..][i - k - 1] == y;
    }
  }

  lemma UnlocksNext(cs: seq<Command>, table: seq<int>, at: seq<nat>, k: nat)
    requires Lists(cs, table, at) && NoDuplicates(table) && k < |table|
    ensures Lists(cs + [Command(UNLOCK, table[k])], table[..k] + table[k + 1..], at[..k] + at[k + 1..])
  {
    var x := table[k];
    var d, left, places := Command(UNLOCK, x), table[..k] + table[k + 1..], at[..k] + at[k + 1..];
    OthersStay(table, k);
    forall i | 0 <= i < |places|
      ensures HoldsFrom(cs + [d], places[i], left[i])
    {
      var j := if i < k then i else i + 1;
      assert places[i] == at[j] && left[i] == table[j] != x;
      HoldsAfter(cs, d, at[j], table[j]);
    }
    forall y | Held(cs + [d], y)
      ensures y in left
    {
      HeldAfterCommand(cs, d, y);
    }
  }

  // ---------------------------------------------------------------------
  // The whole table
  // ---------------------------------------------------------------------

  lemma ListedIsHeld(cs: seq<Command>, table: seq<int>, at: seq<nat>)
    requires Lists(cs, table, at)
    ensures forall x :: x in table <==> Held(cs, x)
  {
    forall x | x in table
      ensures Held(cs, x)
    {
      var i :| 0 <= i < |table| && table[i] == x;
      assert HoldsFrom(cs, at[i], x);
    }
  }

  lemma AllAllowedAppend(cs: seq<Command>, d: Command)
    ensures AllAllowed(cs + [d]) <==> AllAllowed(cs) && Allowed(cs, d)
  {
    var all := cs + [d];
    assert all[..|cs|] == cs && all[|cs|] == d;
    forall k | 0 <= k < |cs|
      ensures Allowed(all[..k], all[k]) <==> Allowed(cs[..k], cs[k])
    {
      assert all[..k] == cs[..k];
    }
    if AllAllowed(all) {
      forall k | 0 <= k < |cs|
        ensures Allowed(cs[..k], cs[k])
      {
        assert Allowed(all[..k], all[k]);
      }
    }
  }

  /** One command on a table that lists what is held. */
  lemma ExecuteByRule(cs: seq<Command>, d: Command, table: seq<int>, at: seq<nat>) returns (next: seq<nat>)
    requires Lists(cs, table, at) && NoDuplicates(table)
    ensures ExecuteCommand(table, d).Some? <==> Allowed(cs, d)
    ensures ExecuteCommand(table, d).Some? ==> Lists(cs + [d], ExecuteCommand(table, d).value, next)
  {
    ListedIsHeld(cs, table, at);
    next := at;
    if d.kind.LOCK? {
      LocksNext(cs, table, at, d.resource);
      next := at + [|cs|];
    } else if d.kind.UNLOCK? {
      RemoveFirstKeepsDistinct(table, d.resource);
      var k := RemoveFirstCuts(table, d.resource);
      if k < |table| {
        UnlocksNext(cs, table, at, k);
        next := at[..k] + at[k + 1..];
      }
    }
  }

  lemma {:induction false} ReplayLists(cs: seq<Command>) returns (at: seq<nat>)
    ensures Replay(cs).Some? <==> AllAllowed(cs)
    ensures Replay(cs).Some? ==> Lists(cs, Replay(cs).value, at)
  {
    at := [];
    if cs != [] {
      var before, d := cs[..|cs| - 1], cs[|cs| - 1];
      assert cs == before + [d];
      at := ReplayLists(before);
      AllAllowedAppend(before, d);
      if Replay(before).Some? {
        ReplayKeepsDistinct(before);
        at := ExecuteByRule(before, d, Replay(before).value, at);
      }
    }
  }

  /** Commands execute one after the other if and only if each locks what is free or
      unlocks what is held; then the table lists exactly the resources locked and not
      unlocked since, each once, in the order in which they were locked. */
  lemma ReplayExactly(cs: seq<Command>)
    ensures Replay(cs).Some? <==> AllAllowed(cs)
    ensures Replay(cs).Some? ==>
      && NoDuplicates(Replay(cs).value)
      && (forall x :: x in Replay(cs).value <==> Held(cs, x))
      && exists at :: Lists(cs, Replay(cs).value, at)
  {
    var at := ReplayLists(cs);
    ReplayKeepsDistinct(cs);
    if Replay(cs).Some? {
      ListedIsHeld(cs, Replay(cs).value, at);
    }
  }
}
