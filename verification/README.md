# Replicated locks, citation ancestors and a worker pool: models and proofs

This project models the three programs of the repository whose correctness is
least obvious and proves what they are built to guarantee.

**Part 1, a lock service replicated by multi-instance Paxos**
(`problemset2/src`). `Commands`, `Messages`, `Acceptors`, `Proposers` and
`ProposerProcesses` follow the two server loops handler by handler, as functions
and as classes whose methods are proved equal to them. `Cluster` puts any number of
servers on a network that drops, duplicates and reorders: sent messages stay in a
set and may be delivered any number of times, in any order, or never; a round may
time out at any moment. Requests go to the other n - 1 servers, a majority is more
than n / 2 of all n. `Ballots`, `BallotSteps`, `Quorums`, `Consensus`, `Replicas` and
`Clients` prove, over all runs: agreement, one value per number, gap-free logs of
which one is a prefix of the other, mutual exclusion, exactly-once execution in
order, and safety of releases; `RealTime` that the logs respect the order in which
commands were acknowledged and submitted, across servers; `Deliveries` that duplicates
never matter to an acceptor. `AcceptorRules`, `ProposerRules`, `Rounds` and `LockTables`
say exactly what an acceptor answers to any sequence of requests, how a proposer moves
on every message of every run, when its waiting loops end, and what a lock table holds
after any sequence of commands, without the handlers' own definitions. `Scenes`,
`RoundRuns`, `BlockedServer` and `Disagreement` build concrete runs for groups of any
size and give the exact conditions. `Text`, `Grammar`, `LogFiles`, `CommandFiles`,
`LogChecks` and `ClientCounts` cover the log files, the scripts that validate them, and
the command files; `Grammar` says exactly which texts the parsers accept.

**Part 2, lowest common ancestors in a citation graph** (`problemset3/src`).
`Reduction`, `ShortestPaths`, `Searches`, `Ancestors` and `Programs` prove that both search loops
compute true shortest distances, hold the same distances after every round and stop
in the same round; that counting pairs is an exact stop test; that the reduce step
does not depend on order or grouping; what a row of the output of `lca.py` means; and
exactly when `lca_improved.py`, which loses its rows in a join, writes the same.

**Part 3, a file server with a worker pool** (`problemset1/partb`). `ThreadPool`,
`SlotTable`, `SlotMatching`, `SlotLives`, `Connections` and `AsyncServers` interleave the
event loop with any number of workers and prove that requests and results are served in
order, how every slot lives and dies, that the slots in PROC and the work in the pool
match one to one, that dispatch finds its slot, that descriptors are conserved, that
a slot gets the result of reading the file that its own connection's first line
names, and exactly when the whole of that file can go out.

## Where the code falls short of its comments, and what is proved about it

*Choosing a value.* The comment at `problemset2/src/server.py:542` says that the value
of the highest proposal is learnt, and acceptors send the number they accepted under
(lines 791-794). The code ranks NACKs by the number of the prepare request instead
(line 517), which is the same for all answers to one request, and it counts prepare
replies to earlier rounds (lines 511-519), while accept replies are matched
(line 615). Neither repair alone gives agreement in general. The
assertion at line 491, however, drops every reply without a client id, and an
acceptor that has accepted nothing yet answers with a client id other than None only
once per instance (lines 791-794 and 808). `Variant` makes the three decisions switchable.
`Disagreement.AgreementExactly` states, for every variant and every size of the group
from three servers on, when all runs agree: if and only if the assertion is there, or
both repairs are. `AS_WRITTEN` has the assertion; `INTENDED` has the two repairs and no
assertion; both agree (`Disagreement.BothVariantsAgree`). Every theorem of part 1 that
needs agreement is proved for each variant that meets the condition. The theorems on
exactly-once execution, counting of votes and numbering, and `LogChecks.ServerLogsPass`,
hold for all variants. Ties in `max` are broken arbitrarily.

*Small groups.* Requests go to the other servers, and a majority is one of all
servers. One or two servers can therefore choose nothing
(`Disagreement.ChoiceExactly`).

*Learnt values.* A command learnt in a round that failed is kept for the next round
(lines 668-673). The model keeps it as well.

*Assertions of the waiting loops.* `ProposerRules.AssertionsFailExactlyWhen` lists the
messages on which a loop of the proposer stops; `ProposerRules.ProposersLiveByRules`
shows that no run delivers one.

*Blocked servers.* A server whose own LOCK is of a resource it has locked gives its
round up (lines 548-566), but only with its own command in hand: with another command
learnt it goes on, and so gets to execute the UNLOCK it waits for
(`ProposerRules.GivesUpExactlyWhenBlocked`, `BlockedServer.BlockedServerIsServed`).

*Filters without effect.* The calls of `distances.filter` at `problemset3/src/lca.py:73` and
`problemset3/src/lca_improved.py:79` drop their results, so a seed is its own ancestor
at distance 0. The filter on the round number (`problemset3/src/lca_improved.py:70-72`) keeps every row
(`ShortestPaths.LastStepRoundExact`).

*Years.* The assertion `y1 == y2` needs more than distinct ids: it holds exactly when
no paper that two seeds reach is listed with two years
(`Ancestors.AssertionHoldsExactlyWhen`).

*The join of lca_improved.py.* Its distances are keyed by pairs of a vertex and a seed
(`problemset3/src/lca_improved.py:54` and 63-69) and are never keyed by the vertex
again, as `problemset3/src/lca.py:65` does in every round. Line 104 joins them with
papers keyed by ids. A pair never equals an id, so nothing joins and the program
writes no row on any input (`Programs.LcaImproved`). That is the right answer, and
the one of `lca.py`, exactly when no two seeds share a paper of known year
(`Programs.EmptyIsRightExactlyWhen`, `Programs.ProgramsAgreeExactlyWhen`);
`Programs.SharedCitationIsLost` is an input where it is not. `Programs.LcaRekeyed` is
the program with the missing map added. The search loops themselves agree.

*Descriptor 0.* The assertion on a positive identifier in result dispatch holds in
every run exactly when descriptor 0 is open before the first connection
(`SlotMatching.AssertionsHoldExactlyWhen`). The system hands out the lowest free
number, so a process started with descriptor 0 closed gives it to the listening
socket; a connection gets it only if it is closed after that socket was opened.

*Sending.* The send call at `problemset1/partb/server.cc:284` is given the size of the
pointer, not of the file, and the first call that succeeds closes the connection
(lines 293-303). A whole file can go out exactly when it is no longer than a pointer
(`Connections.WholeFileExactlyWhen`), and no connection ever gets more bytes than that
(`Connections.OneSendPerConnection`). The pointer moreover comes from a string that is
gone when `read_file` returns (`problemset1/partb/thread_pool.cc:287-293`), so what
the model records as the buffer of a slot is what `read_file` read, not what is in
memory when the call is made; the theorems about answers are about routing.

*Negative ids.* A minus sign adds a field to a log line, so the validating script rejects a
log that executes (`LogFiles.NegativeResourceIsRejected`);
`LogFiles.CheckerAcceptsExactly` gives the exact condition.

## Model

| member | source | states |
|---|---|---|
| `Acceptors.AcceptorProcess.constructor` | problemset2/src/server.py:735-744 | A new acceptor has an empty history and has seen nothing |
| `Acceptors.AcceptorProcess.Handle` | problemset2/src/server.py:748-842 | One message changes the dictionary, the message history and the reply exactly as the acceptor function says: promise, NACK with the accepted number, ACCEPT_ACK, silence, or skipped duplicate |
| `Acceptors.AcceptorProcess.HandleAll` | problemset2/src/server.py:742-850 | The loop over a queue gives the folded state and all replies in order |
| `Acceptors.SuppressionIsTransparent` | problemset2/src/server.py:751-766 | With one value per instance and number, the acceptor with msg_history and the one without end with the same accept_history, for every message sequence |
| `Acceptors.SuppressionNeedsOneValue` | problemset2/src/server.py:751-766 | Without that condition some sequence ends in different histories |
| `Deliveries.AcceptorIsItsDeliveries` | problemset2/src/server.py:746-766 | In every run an acceptor is the acceptor loop applied to what was delivered to it |
| `Deliveries.DuplicatesNeverMatter` | problemset2/src/server.py:746-842 | In every run an acceptor has promised and accepted exactly what it would have without msg_history |
| `AcceptorRules.HistoryExactly` | problemset2/src/server.py:768-842 | After any sequence of requests an acceptor knows exactly the instances asked about; each entry has the highest number seen and the last ACCEPT that no earlier request topped |
| `AcceptorRules.ReplyExactly` | problemset2/src/server.py:768-842 | Any request is answered if and only if its number tops (PREPARE) or is topped by none of (ACCEPT) the earlier ones of its instance; the answer tells whether the instance was new and what was last accepted |
| `AcceptorRules.QueueRepliesExactly` | problemset2/src/server.py:742-850 | With one value per number, the loop over a queue sends exactly the answers to the requests that are taken and new, in order |
| `AcceptorRules.RepliesExactly` | problemset2/src/server.py:742-842 | In every run the replies an acceptor has sent are exactly these answers to the requests delivered to it, duplicates included |
| `AcceptorRules.EntriesExactly` | problemset2/src/server.py:742-842 | In every run its entries are exactly what the requests delivered to it make of them |
| `Commands.RemoveFirstCuts` | problemset2/src/server.py:332-332 | list.remove takes out exactly the first occurrence and keeps the order of the rest |
| `Commands.ReplayKeepsDistinct` | problemset2/src/server.py:324-335 | A lock set reached by executing commands never holds a resource twice |
| `Commands.ExecuteFailsExactlyWhen` | problemset2/src/server.py:324-335 | On a reachable lock set an assertion fails if and only if the command locks a held resource, unlocks a free one, or is neither |
| `LockTables.ReplayExactly` | problemset2/src/server.py:322-335 | Commands execute one after the other if and only if each locks what is free or unlocks what is held; the table then holds exactly the resources locked and not unlocked since, once each, in the order of their locking |
| `ProposerProcesses.ProposerProcess.constructor` | problemset2/src/server.py:296-297 | A new proposer is idle, at instance 0, with its server id as number |
| `ProposerProcesses.ProposerProcess.ServeClient` | problemset2/src/server.py:448-456 | A client message becomes the served and the learnt command |
| `ProposerProcesses.ProposerProcess.SendPrepare` | problemset2/src/server.py:463-474 | The prepare request and the whole state after READY |
| `ProposerProcesses.ProposerProcess.IsDuplicate` | problemset2/src/server.py:277-294 | Says whether the signature was known and remembers it |
| `ProposerProcesses.ProposerProcess.HighestOf` | problemset2/src/server.py:542-544 | The loop for max returns an index that no other NACK's key exceeds |
| `ProposerProcesses.ProposerProcess.GiveUpPrepare` | problemset2/src/server.py:534-540 | A round given up goes back to READY with the number raised by n, nothing else |
| `ProposerProcesses.ProposerProcess.TakePrepareReply` | problemset2/src/server.py:486-532 | What one queued message does to the state in PROPOSING, in every branch |
| `ProposerProcesses.ProposerProcess.LearnAndDecide` | problemset2/src/server.py:542-566 | Learns a highest NACK, then feigns a failure exactly when its own LOCK is blocked, else goes on to ACCEPT |
| `ProposerProcesses.ProposerProcess.AwaitPromises` | problemset2/src/server.py:479-566 | The whole PROPOSING branch equals the promise round on the queue |
| `ProposerProcesses.ProposerProcess.RequestAccept` | problemset2/src/server.py:571-584 | The accept request for the learnt value, or a failed assertion without one |
| `ProposerProcesses.ProposerProcess.TakeAcceptReply` | problemset2/src/server.py:593-626 | What one queued message does to the state in ACCEPTING, in every branch |
| `ProposerProcesses.ProposerProcess.AnswerClient` | problemset2/src/server.py:631-646 | Acknowledges exactly when command and client id are those being served |
| `ProposerProcesses.ProposerProcess.ExecuteLearnt` | problemset2/src/server.py:655-666 | Executes the learnt command and moves on, or stops on a failed assertion |
| `ProposerProcesses.ProposerProcess.Resolve` | problemset2/src/server.py:628-666 | The state after a majority of votes: answer, resolution, log line, execution, next instance |
| `ProposerProcesses.ProposerProcess.AwaitVotes` | problemset2/src/server.py:589-673 | The whole ACCEPTING branch equals the vote round on the queue |
| `ProposerProcesses.PromiseRoundIsRun` | problemset2/src/server.py:479-566 | The PROPOSING branch on delivered replies is a run of the cluster in which only this proposer moves |
| `ProposerProcesses.VoteRoundIsRun` | problemset2/src/server.py:589-673 | The same for the ACCEPTING branch |
| `ProposerRules.GivesUpExactlyWhenBlocked` | problemset2/src/server.py:542-566 | In every run, when a reply completes a majority of promises, the proposer returns to READY with its next number if and only if what it then holds is its own LOCK of a resource in its lock set; otherwise it goes to ACCEPT with number and instance unchanged; it holds the value of a highest refusal, or what it held before if nobody refused |
| `ProposerRules.CodeCountsStaleReplies` | problemset2/src/server.py:486-544 | In PROPOSING the code as written counts every new prepare reply for its instance that names a client, to whatever number it answers, and gives the round up exactly on a reply that names none; max() takes a NACK whose prepare number is as high as any |
| `ProposerRules.ProposersLiveByRules` | problemset2/src/server.py:461-673 | Every step of every run moves every proposer, and sends requests, by rules told in terms of what was seen, counted, learnt and locked: new and matching replies count once, more than half decides, votes for the current number resolve, a timeout raises the number once or twice, and nothing else changes |
| `ProposerRules.NumbersAndHistories` | problemset2/src/server.py:486-673 | In every run a server's number is its id plus n for every round given up or resolved and 2n for every timeout among votes, and its message history is exactly what it received while waiting, minus the replies that aborted a round |
| `Rounds.PromiseRoundExactly` | problemset2/src/server.py:479-566 | In every run the PROPOSING branch decides, on the shortest beginning of its queue with promises of more than half of the group, if and only if there is one before a reply that aborts; otherwise the round fails under the next number with nothing learnt |
| `Rounds.VoteRoundExactly` | problemset2/src/server.py:589-673 | In every run the ACCEPTING branch resolves its instance if and only if its queue brings different votes of more than half of the group for its number; otherwise it times out with the number raised twice and the value kept |
| `RoundRuns.WholeRound` | problemset2/src/server.py:461-666 | In any group of three or more, from any reachable state in which the others know nothing of the instance or have accepted one value there under lower numbers, a run takes the server from READY to the resolved instance with that value, or else its own |
| `BlockedServer.BlockedServerIsServed` | problemset2/src/server.py:542-566 | For every group of three or more, every resource and any two clients: a server blocked on its own LOCK, and a run from there in which it learns and executes the other client's UNLOCK, then has its own LOCK resolved and acknowledged |
| `Quorums.QuorumsMeet` | problemset2/src/server.py:631-631 | Any two sets of more than n / 2 of n servers share one |
| `Ballots.OwnerIsRemainder` | problemset2/src/server.py:297-297 | Server p owns exactly the numbers p + round * n |
| `BallotSteps.BallotInvAlways` | problemset2/src/server.py:783-842 | In every run, whatever the variant: promises are kept, every vote and NACK names a value really offered, counted replies are real and distinct |
| `Consensus.OneNumberOneValue` | problemset2/src/server.py:561-564 | In every run requests under one number come from the owner of the number, for one instance and with one value |
| `Consensus.EachRoundIsHigher` | problemset2/src/server.py:668-673 | In READY, the next number is the server's own and higher than all it used, over every branch that leads back |
| `Consensus.HighestReplyIsSafe` | problemset2/src/server.py:542-546 | With both repairs, the value taken from a majority of promises can no longer be contradicted under any lower number |
| `Consensus.BallotInvariantAlways` | problemset2/src/server.py:542-581 | If ACCEPT(k, v) was sent at an instance and a majority accepted w under a lower number there, then v = w |
| `Consensus.AckRoundComesFirst` | problemset2/src/server.py:489-491 | With the assertion, a round that ends without a NACK is the first to offer anything at its instance |
| `Consensus.OneValueOfferedPerInstance` | problemset2/src/server.py:489-491 | With the assertion, an instance sees only one value in all accept requests of a run |
| `Consensus.Agreement` | problemset2/src/server.py:593-631 | Two values accepted by majorities for one instance, at any numbers, are equal, client ids included |
| `Disagreement.SomethingIsResolved` | problemset2/src/server.py:586-666 | For every variant, the code as written included, and every group of three servers or more, a run that chooses, logs, executes and acknowledges a value |
| `Disagreement.StaleRepliesDisagree` | problemset2/src/server.py:511-519 | In every group of three servers or more, a run that chooses two values when stale prepare replies count |
| `Disagreement.TiedRepliesDisagree` | problemset2/src/server.py:515-519 | The same when NACKs are ranked by the prepare number |
| `Disagreement.ChoiceTakesThree` | problemset2/src/server.py:340-345 | No value is ever chosen by fewer than three servers |
| `Disagreement.ChoiceExactly` | problemset2/src/server.py:340-345 | A group can choose a value if and only if it has three servers or more |
| `Disagreement.AgreementExactly` | problemset2/src/server.py:486-546 | All runs of a group of three or more agree if and only if replies without a client abort the round, or prepare replies are matched and ranked by the accepted number |
| `Disagreement.BothVariantsAgree` | problemset2/src/server.py:486-546 | The code as written always agrees, and so does the protocol with the two repairs |
| `Replicas.CountingIsSound` | problemset2/src/server.py:593-650 | When the accept loop ends, more than n / 2 different servers really accepted the learnt value under the current number, and the last reply carries the learnt client |
| `Replicas.ReplicaConsistency` | problemset2/src/server.py:648-666 | Of any two logs one is a prefix of the other; logs are gap-free and match the resolutions; each lock set is the replay of its log; equal instances mean equal lock sets |
| `Replicas.MutualExclusion` | problemset2/src/server.py:548-566 | In every run no server executes a LOCK of a resource in its lock set; if a process stops, it stops on an UNLOCK of a free resource or on a NONE |
| `Clients.LocksAlternate` | problemset2/src/server.py:324-335 | Between two LOCKs of a resource in any log there is an UNLOCK of it |
| `Clients.ExactlyOnceInOrder` | problemset2/src/server.py:631-666 | If each client id is used at one server, that server's log entries for the client are, in order, exactly the commands it acknowledged |
| `Clients.UnlockSafety` | problemset2/src/server.py:330-333 | If clients unlock only what their acknowledged commands hold, no server executes an UNLOCK of a free resource, no process stops, and every lock has one holder |
| `RealTime.AcksFollowSubmissions` | problemset2/src/server.py:425-456 | A client's server has acknowledged its submissions in order, all but the one it is working on |
| `RealTime.LogsFollowSubmissions` | problemset2/src/server.py:631-666 | If each client id is used at one server, every log holds, of each client, the first so many commands that the client submitted |
| `RealTime.RealTimeOrder` | problemset2/src/server.py:631-666 | If each client id is used at one server, what any server had acknowledged before a command was submitted at any server has a smaller instance than that command in every log |
| `Text.StripPadding` | problemset2/src/lock_file.py:132-136 | strip removes exactly the padding around a string that begins and ends with other characters |
| `Text.SplitFirst` | problemset2/src/lock_file.py:133-138 | split cuts at the first separator and goes on behind it |
| `Text.SplitCounts` | problemset2/src/lock_file.py:133-134 | split gives one field more than there are separators |
| `Text.ParsePrinted` | problemset2/src/lock_file.py:142-142 | int inverts printing of an integer, blanks around it included |
| `Text.FirstOfLines` | problemset2/src/lock_file.py:131-131 | Iterating over a file yields the line up to its newline, then the lines of the rest |
| `Grammar.StripExactly` | problemset2/src/lock_file.py:132-132 | strip gives the one string without such characters at its ends that is left between two stretches of them |
| `Grammar.RStripExactly` | problemset2/src/client.py:80-80 | rstrip takes away a longest end of the characters, and nothing else |
| `Grammar.SplitExactly` | problemset2/src/lock_file.py:133-138 | split gives the one list of fields without the separator that join to the string |
| `Grammar.ParseIntExactly` | problemset2/src/lock_file.py:142-142 | int accepts exactly an optional sign, zeros and the digits of a number, blanks around them, and gives that number |
| `Grammar.LinesExactly` | problemset2/src/lock_file.py:131-131 | Iterating over any file gives pieces that join to it, each but a last one ending in its only newline |
| `Grammar.ParseLineExactly` | problemset2/src/lock_file.py:132-142 | Any line gets through the checker's assertions if and only if it has three fields, the last being two words of which the second is a number; the result is those parts |
| `Grammar.ReadLineExactly` | problemset2/src/lock_file.py:241-259 | Any line counts as a record if and only if it parses so and its first field is a number; the record is that instance with the command printed again |
| `Grammar.CheckerAnswersExactly` | problemset2/src/lock_file.py:121-157 | For any file whatever: the checker answers true if and only if every line is a command and they execute one after the other, false if and only if good lines are followed by a line of another kind, and fails otherwise |
| `LogFiles.PrintingIsInjective` | problemset2/src/command.py:28-48 | Commands that print the same are equal |
| `LogFiles.UnsignedLineParses` | problemset2/src/server.py:652-653 | A log line without negative ids parses back to its instance, kind and resource |
| `LogFiles.LineTellsEntry` | problemset2/src/server.py:652-653 | Two log lines without negative ids are equal only if instance, client and command are |
| `LogFiles.SampleLine` | problemset2/src/server.py:652-653 | One log line, letter by letter |
| `LogFiles.SampleCommands` | problemset2/src/command.py:36-48 | One command of each kind, letter by letter |
| `LogFiles.ParsedLineHasTwoDashes` | problemset2/src/lock_file.py:132-134 | Any line at all gets past the assertion on its fields only with exactly two dashes |
| `LogFiles.SignedLineFails` | problemset2/src/lock_file.py:133-134 | A log line with a negative id fails the assertion on its fields |
| `LogFiles.ValidateLockFile` | problemset2/src/lock_file.py:121-157 | The loop returns what the validation of all lines from an empty lock list gives, failed assertions included |
| `LogFiles.CheckerAcceptsExactly` | problemset2/src/lock_file.py:129-157 | A printed log is accepted if and only if it replays on an empty lock set and has no negative id |
| `LogFiles.NegativeResourceIsRejected` | problemset2/src/lock_file.py:133-134 | A concrete log that executes and is rejected |
| `LogChecks.LoadInstances` | problemset2/src/lock_file.py:184-206 | Loading the longest log gives the command of every instance, or fails on a bad line or a repeated instance |
| `LogChecks.LoadLogExactly` | problemset2/src/lock_file.py:184-200 | Any records load if and only if all were read and no two are for one instance; what is loaded says of every instance what its line says, and nothing else |
| `LogChecks.ValidateReplicas` | problemset2/src/lock_file.py:234-259 | Accepts if and only if the longest log loads and every line of every other log agrees with it |
| `LogChecks.ReplicationCheckExactly` | problemset2/src/lock_file.py:184-259 | The comparison refuses exactly when a line of the longest log does not parse, an instance occurs twice in it, or a line of another log does not parse or is not one of its records |
| `LogChecks.ReplicationCheckIsPrefix` | problemset2/src/lock_file.py:234-259 | For gap-free logs that comparison passes if and only if the other log's commands are a prefix of the longest log's |
| `LogChecks.ServerLogsPass` | problemset2/src/lock_file.py:121-157 | In every run a server's log file is accepted if and only if the server did not stop on a refused command and no logged id is negative |
| `LogChecks.DisciplinedLogsPass` | problemset2/src/lock_file.py:121-157 | With disciplined clients, each at one server, every log file without negative ids is accepted |
| `LogChecks.ReplicaLogsMatch` | problemset2/src/lock_file.py:230-259 | In every run the log files of any two servers pass the comparison |
| `ClientCounts.TallyLines` | problemset2/src/lock_file.py:208-219 | The dictionary holds how often each line occurs, and nothing else |
| `ClientCounts.ValidateClients` | problemset2/src/lock_file.py:184-226 | Accepts if and only if the longest log loads and every line of the clients occurs in it as often |
| `ClientCounts.ClientCheckExactly` | problemset2/src/lock_file.py:184-226 | The comparison of counts accepts if and only if every line of the log was read, no instance occurs twice, and each line of the clients stands at as many places in the log as in the client files |
| `ClientCounts.LongestHoldsAll` | problemset2/src/lock_file.py:168-178 | Once a client has been answered, the longest log holds exactly its submissions, in order |
| `ClientCounts.FinishedClientsPass` | problemset2/src/lock_file.py:184-226 | When every client has been answered, each at one server, the longest log without negative ids passes the comparison of counts with the client files |
| `CommandFiles.CreateInvertsPrinting` | problemset2/src/client.py:76-90 | create_command recovers a printed LOCK or UNLOCK, for any id and with newlines and then spaces behind it, and refuses a printed NONE |
| `CommandFiles.LoadCommandFile` | problemset2/src/client.py:96-101 | The loading loop gives all commands of the file in order, or fails when one line does |
| `Grammar.CreateCommandExactly` | problemset2/src/client.py:76-90 | Which texts make which command: two words, an action in any case and a number, with newlines and then spaces behind |
| `Grammar.LoadCommandsExactly` | problemset2/src/client.py:96-101 | A command file loads to exactly the commands of its lines, in order, and fails if and only if some line is not a command |
| `CommandFiles.FilesRoundTrip` | problemset2/src/lock_file.py:63-66 | A generated command file loads to exactly the commands written, unless one is a NONE |
| `Reduction.ReductionsAgree` | problemset3/src/lca.py:63-64 | Two reductions of the same values give the same result, whatever the order, grouping and repetition |
| `Reduction.ReducesIffLeast` | problemset3/src/lca.py:63-65 | The possible results of reduceByKey are exactly the maps of least values |
| `Reduction.ReduceByKey` | problemset3/src/lca.py:63-65 | Taking rows in any order gives the least value of every key |
| `ShortestPaths.WalkIffPath` | problemset3/src/lca.py:53-60 | Walks counted by steps are the vertex sequences joined by edges |
| `ShortestPaths.FullRoundExact` | problemset3/src/lca.py:59-65 | A round that extends all distances takes the exact distances within k edges to those within k + 1 |
| `ShortestPaths.LastStepRoundExact` | problemset3/src/lca_improved.py:61-72 | A round that extends the last step only does so too; its filter on the round number keeps every row |
| `ShortestPaths.UnchangedCountIsComplete` | problemset3/src/lca.py:58-69 | When the number of pairs does not change, every reachable pair is there with its true shortest distance and nothing changed |
| `ShortestPaths.GrownCountIsNew` | problemset3/src/lca.py:58-69 | When it changes, it grew, and some pair has exactly this round's distance |
| `ShortestPaths.KeysBounded` | problemset3/src/lca.py:54-69 | The pairs stay within the finite set of vertex-seed pairs |
| `ShortestPaths.RoundsAgree` | problemset3/src/lca_improved.py:60-76 | After every round both programs hold the same distances, on any graph |
| `ShortestPaths.SameOutcome` | problemset3/src/lca_improved.py:60-76 | They end with the same distances after the same number of rounds |
| `Searches.ExtendAll` | problemset3/src/lca.py:59-65 | The loop body of lca.py performs one full round |
| `Searches.ExtendLast` | problemset3/src/lca_improved.py:61-72 | The loop body of lca_improved.py performs one last-step round |
| `Searches.BellmanFord` | problemset3/src/lca.py:54-70 | The loop terminates with the exact distance of every reachable pair, after the determined number of rounds |
| `Searches.LastStepSearch` | problemset3/src/lca_improved.py:54-76 | So does the loop that extends the last step only |
| `Ancestors.AncestorReduceIsIndependent` | problemset3/src/lca.py:84-103 | Any bracketing and order of compare_accestors over the same candidates yields their unique least element |
| `Ancestors.AddYears` | problemset3/src/lca.py:97-99 | The join with the papers and its map give the dated rows, or fail when a joined row does not unpack |
| `Ancestors.LowestCommonAncestors` | problemset3/src/lca.py:97-103 | Join, self-join, filter, map and reduce give an output exactly when no row fails to unpack and no year assertion fails, and it is a reduction of all candidate rows |
| `Ancestors.OutputExistsExactlyWhen` | problemset3/src/lca.py:97-103 | There is an output if and only if nothing fails |
| `Ancestors.OutputIsDetermined` | problemset3/src/lca.py:102-103 | Whatever the order and grouping of the reduction, given distance rows and papers lead to one output |
| `Ancestors.PairsJoinNothing` | problemset3/src/lca_improved.py:103-105 | Rows keyed by vertex and seed join with no paper, and the only output is the empty one |
| `Ancestors.CandidatesAreCommonAncestors` | problemset3/src/lca.py:97-102 | The candidate rows of two seeds are exactly their common ancestors of known year with the larger true distance |
| `Ancestors.LcaOptimality` | problemset3/src/lca.py:54-103 | For s1 < s2 there is a row exactly when a common ancestor of known year exists, and it is the least by (larger distance, year, id) |
| `Ancestors.AssertionHoldsExactlyWhen` | problemset3/src/lca.py:76-82 | The year assertion holds on every row if and only if no paper reached by two seeds is listed with two years |
| `Ancestors.OneYearPerPaperSuffices` | problemset3/src/lca.py:76-82 | With one year per paper id it never fails |
| `Programs.Lca` | problemset3/src/lca.py:49-103 | From edges and papers to rows: it fails exactly when two seeds share a paper listed with two years; else the row of s1 < s2 exists exactly when they share a paper of known year, and is the least such by (larger true distance, year, id) |
| `Programs.LcaImproved` | problemset3/src/lca_improved.py:49-109 | The program as it stands writes no row on any input |
| `Programs.EmptyIsRightExactlyWhen` | problemset3/src/lca_improved.py:104-109 | Writing no row is the right answer if and only if no two seeds share a paper of known year |
| `Programs.ProgramsAgreeExactlyWhen` | problemset3/src/lca_improved.py:104-109 | The two programs write the same if and only if no two seeds share a paper of known year |
| `Programs.SharedCitationIsLost` | problemset3/src/lca_improved.py:104-109 | A concrete input on which lca.py writes a row and lca_improved.py does not |
| `Programs.LcaRekeyed` | problemset3/src/lca_improved.py:49-109 | With the missing map of problemset3/src/lca.py:65 added after the search, the program meets what `Programs.Lca` meets |
| `Programs.AnswerIsUnique` | problemset3/src/lca.py:54-103 | An input has one answer, so lca.py and the repaired program write the same rows |
| `ThreadPool.WakeupsAreNotLost` | problemset1/partb/thread_pool.cc:210-237 | In every interleaving of any number of workers and producers, while a worker sleeps without a notification no work is queued |
| `ThreadPool.TasksAreServedInOrder` | problemset1/partb/thread_pool.cc:142-168 | In every run the work queued so far, in order, is the work that workers have taken up, in order, followed by what is still queued |
| `ThreadPool.ResultsAreServedInOrder` | problemset1/partb/thread_pool.cc:193-253 | In every run the results delivered so far, in order, are those collected, in order, followed by those still queued; each is what reading the file of the finished work gives |
| `ThreadPool.WorkersChangeExactlyWhen` | problemset1/partb/thread_pool.cc:203-253 | In any step a worker becomes busy, falls asleep, is notified or starts over exactly under the condition for it, and takes the front of the queue |
| `ThreadPool.ThreadPoolQueues.Broadcast` | problemset1/partb/thread_pool.cc:105-108 | Every sleeper is notified and nobody else changes |
| `ThreadPool.ThreadPoolQueues.QueueOne` | problemset1/partb/thread_pool.cc:142-148 | Pushes at the back and notifies all sleepers |
| `ThreadPool.ThreadPoolQueues.DequeueTask` | problemset1/partb/thread_pool.cc:157-168 | Takes the front, or fails on an empty queue |
| `ThreadPool.ThreadPoolQueues.LookForWork` | problemset1/partb/thread_pool.cc:217-232 | The first critical section: take the front or fall asleep |
| `ThreadPool.ThreadPoolQueues.WakeUp` | problemset1/partb/thread_pool.cc:232-237 | After a wait: take the front or start over |
| `ThreadPool.ThreadPoolQueues.QueueResult` | problemset1/partb/thread_pool.cc:243-253 | The result of the held work, with its identifier and the file's bytes, goes to the back of the results |
| `ThreadPool.ThreadPoolQueues.DequeueResult` | problemset1/partb/thread_pool.cc:193-198 | Takes the front result |
| `SlotTable.FirstEmpty` | problemset1/partb/server.cc:215-222 | The search for a slot returns the first EMPTY one from k on, or the end when there is none |
| `SlotTable.FirstWith` | problemset1/partb/server.cc:341-350 | The search for a descriptor returns its first slot, or the end when there is none |
| `SlotTable.PromoteSlots` | problemset1/partb/server.cc:318-323 | INIT becomes RECV from slot 1 on and nothing else changes |
| `SlotMatching.WorkersConserve` | problemset1/partb/thread_pool.cc:203-253 | No step of a worker loses, invents or duplicates an identifier |
| `SlotMatching.ServerInvAlways` | problemset1/partb/server.cc:171-377 | Every run keeps the slot table, the owners of descriptors, the match with the pool and the contents of the pool right, and with descriptor 0 taken no assertion fails |
| `SlotMatching.SlotsMatchPool` | problemset1/partb/server.cc:238-271 | In every run an identifier is in flight once if a slot in PROC has it and not at all otherwise; live slots have distinct descriptors |
| `SlotMatching.DispatchFindsItsSlot` | problemset1/partb/server.cc:325-372 | The search for a result's descriptor stops at the only slot that has it; that slot is in PROC and the result is for its path |
| `SlotMatching.DescriptorsAreConserved` | problemset1/partb/server.cc:196-237 | The open descriptors are exactly those open at the start, those lost to a failed fcntl, those of the files that workers are reading, and those of live slots |
| `SlotMatching.AssertionsHoldExactlyWhen` | problemset1/partb/server.cc:339-351 | The two dispatch assertions hold in every run if and only if descriptor 0 is open from the start |
| `SlotLives.SlotsLiveByRules` | problemset1/partb/server.cc:196-372 | In every run each state of each slot ends in one way only: EMPTY by a connection for which it is the first free slot, INIT after the events, RECV by a newline on its connection, PROC by the result for its own request, SEND by a send that succeeds; a missing file frees it |
| `SlotLives.StepsActByRules` | problemset1/partb/server.cc:196-372 | In every run descriptors are opened and closed by these events only; the process exits exactly on a connection that finds all slots taken and stops exactly on a result for descriptor 0; a send that fails changes nothing |
| `SlotLives.AcceptTakesOneSlot` | problemset1/partb/server.cc:196-237 | In every run an accepted connection ends the process if and only if every slot from 2 on is live, and otherwise brings exactly one slot to life, in INIT and with its descriptor |
| `SlotLives.ServerPoolIsPoolRun` | problemset1/partb/server.cc:238-372 | What a run of the server does to its pool is a run of the pool: complete requests are queued, results are collected by dispatch |
| `SlotLives.RequestsAreServedInOrder` | problemset1/partb/server.cc:238-372 | So requests are taken up in the order in which they became complete, and results dispatched in the order of delivery |
| `SlotLives.DispatchLoopDrains` | problemset1/partb/server.cc:325-375 | The dispatch loop is a run of dispatch steps only, after which no result is left unless the process stopped |
| `Connections.AbsorbIsFirstLine` | problemset1/partb/server.cc:250-269 | Appending byte by byte collects the first line, and stops exactly when a newline came |
| `Connections.FirstLineEnds` | problemset1/partb/server.cc:59-66 | The extracted line is the prefix up to the first newline, or everything |
| `Connections.PathIsFirstLine` | problemset1/partb/server.cc:238-271 | However the bytes were cut into chunks, a live slot's path is the first line of its connection's bytes, and it receives as long as that line is incomplete |
| `Connections.AnswersAreForTheRequest` | problemset1/partb/server.cc:273-284 | A slot that sends has its own connection's descriptor and the result that read_file gave for the first line of that connection's own bytes: answers are never crossed |
| `Connections.OneSendPerConnection` | problemset1/partb/server.cc:284-303 | No connection gets more bytes than a pointer has, and one still being served has got none |
| `Connections.WholeFileExactlyWhen` | problemset1/partb/server.cc:284-303 | A whole file can go out if and only if it is no longer than a pointer |
| `AsyncServers.AsyncServer.constructor` | problemset1/partb/server.cc:138-168 | The arrays start as the initial table |
| `AsyncServers.AsyncServer.HandleAccept` | problemset1/partb/server.cc:196-237 | A connection goes to the first free slot from 2 on; a full table ends the process; a failed fcntl leaves the descriptor open |
| `AsyncServers.AsyncServer.HandleReceive` | problemset1/partb/server.cc:238-271 | The byte loop appends up to the newline and then queues one piece of work for the slot |
| `AsyncServers.AsyncServer.HandleSend` | problemset1/partb/server.cc:273-312 | A failed send changes nothing; any other closes the descriptor and frees the slot |
| `AsyncServers.AsyncServer.PromoteAll` | problemset1/partb/server.cc:318-323 | The loop performs the state transition of all slots |
| `AsyncServers.AsyncServer.DispatchResult` | problemset1/partb/server.cc:329-372 | The search loop and its branches perform one dispatch step |
| `AsyncServers.AsyncServer.DispatchResults` | problemset1/partb/server.cc:325-375 | The outer loop drains the results |

## Left out

- Sockets, pickling, processes, ports, sleeps and log handles of the lock servers: messages are values in a set, handlers are atomic steps, a timeout may happen at any time.
- EXIT messages and the shutdown of the servers.
- Liveness of Paxos: rounds may restart for ever, and no progress is claimed.
- Crash recovery: a stopped server stays stopped. A failed assertion outside a try block is modelled as a process that takes no further step.
- The outer `while state != IDLE` loop of the proposer as one method: each of its branches is a method, and `Cluster` runs them in the order of the states.
- Client processes: a client message arrives only at an idle proposer, which is the one-command-at-a-time rule; which client sends what is arbitrary, and `Homed` and `Disciplined` name the two conditions that some theorems need.
- What the comparison of command counts says while a client still waits for an answer; the choice of the longest log by `wc`.
- Spellings that `int` accepts beyond blanks, one sign and decimal digits, such as a tab behind the sign.
- The generators of command files other than the format they write; `make_deadlock_file` never fills its lock list.
- Spark partitioning, caching and sampling, CSV and S3: edges and papers are given sequences, joins are sets of rows, and a reduction may take its rows in any order and grouping, so the multiplicity of equal rows is not tracked; a reduction by either order is insensitive to it.
- The order of steps inside one pass of the event loop: the model lets accepts, receives, sends, promotions and dispatches happen in any order, which includes the order of the code.
- The bytes that a send call reads through its pointer; their number is modelled.
- The lifetime of the buffer that `read_file` returns, files that change while the server runs (a path has one content), and files that fail to open for want of a descriptor.
- Stale `revents`, the slot array at index MAX_CONNECTIONS, and the self-pipe, which only wakes the event loop. Unset descriptors are -1.
- `thread_pool::destroy`, the exit signal and the join of workers, for which no termination is claimed.
- The part A shell, `validate_ip`, `blocking_serv` and everything under `project/`.
