# kal-zk: a verified model

kal-zk adds zero-knowledge credentials to a web application. Operators issue credentials as leaves of a Merkle tree
kept sparsely in Postgres; holders prove membership, a numeric threshold and an audience pseudonym (a nullifier)
against a recently published root, and turn the proof into a pseudonymous login, a claim on their session, or a
one-shot allowance consumed inside one HTTP request. This project models that logic in Dafny and proves what it
promises. Nothing here executes the original program.

## How it is organised

| file | what it holds |
|---|---|
| `Hashing.dfy` | field elements and the domain-separated hashes, over an arbitrary hash; the *ideal* (injective) hash and a symbolic one that satisfies it |
| `SparseTree.dfy` | the sparse node table against the dense tree over all leaves (`Dense`), for every depth |
| `TreeTables.dfy` | credentials, nodes and roots as tables; issue, revoke and revoke-for-user run alone (`Perform`) and the invariant they keep (`Good`) |
| `TreeHistory.dfy` | whole serial histories: retirement, republication, the grace window, batches |
| `Writers.dfy` | the same transactions as a statement-level state machine with the advisory lock, any number at once |
| `WriterRuns.dfy` | that those interleavings do commit: every operation, and every serial history |
| `PathReader.dfy` | the lock-free path read, every statement against possibly different tables |
| `TreeStore.dfy` | the tree operations as they run: loops over levels and tables changed in place |
| `Oracle.dfy`, `Circuit.dfy` | the plain membership oracle, and the circuit as constraints over the BN254 scalar field with its stateful hasher |
| `Tokens.dfy`, `Encoding.dfy` | challenge tokens, base64url (RFC 4648, section 5), canonical field encodings, derived emails |
| `Holder.dfy` | the request-local claim holder |
| `Protocol.dfy` | VerifyKnowledge, Login and ProveClaim as a statement-level state machine under READ COMMITTED |
| `ProtocolSafety.dfy`, `ProtocolTheorems.dfy` | the invariant of every interleaving, and what follows from it |
| `Progress.dfy` | requests that nothing stands in the way of go through, so the safety theorems are about runs that exist |
| `Sessions.dfy`, `Provenance.dfy`, `Accounts.dfy` | where each session, session claim and success comes from, and that deleted accounts stay out |
| `EndToEnd.dfy` | the tree's history supplying the protocol's roots: how long, and for how much, a credential can be used |
| `Instances.dfy` | runs and a hash on the program's 32-byte encoding in which the end-to-end hypotheses hold together |
| `Conservation.dfy` | one-shot allowances from the burned nullifier to the consuming directive |

Theorems that need no property of the hash hold for every hash. Theorems about binding assume it ideal: no two input
lists collide, no digest is the bare label element that the empty leaf hashes, and embedding integers is injective below
2^248. `Hashing.SymbolicIsIdeal` meets the assumption with syntax trees, `Instances.NamedIsIdeal` with the program's own
32-byte encoding of integers, some digests being canonical field elements. Depth is a parameter `d`;
`SparseTree.MERKLE_DEPTH` is the deployed 32.

## Where the code keeps less than a first reading suggests

* `PathReader.RepublishedRootFoolsReader`: Path reads the credential once and compares two root reads. If a revocation
  takes the tree back to an earlier leaf set during the walk, the roots agree and the returned path does not fold to
  the root. The failing schedule exists at every depth. `PathReader.PathFoldsIff` gives the exact condition and
  `PathReader.OptimisticReadIsSnapshot` the guarantee when only issuances commit. The comment in
  `zkauthn/tree.go:91-92` claims it without that condition.
* `TreeHistory.BatchLeavesPhantomRoots`: revoking several leaves in one transaction publishes a root per leaf, so roots
  that no committed state ever has as current verify for the grace. `TreeHistory.RevocationLatency` covers them.
* `Conservation.LostCommitKeepsGrant`: the sink runs before the commit, so in any run a lost commit leaves a grant in the
  request with no nullifier burned. `Conservation.BurnsAccountIff` states exactly when burns account for every allowance.
* `Circuit.CircuitTakesAnySecret`: the 248-bit bound on secrets belongs to the Go type; the circuit accepts any field
  element as a secret. `Circuit.CircuitEqualsOracle` is therefore stated with the bound on one side.
* `Tokens.TokensOfOneField`: the decoder ignores the last letter's four spare bits, so sixteen texts are read as the same
  field. A challenge row is keyed by the hash of the text, so only one of them finds it.

## Model

| member | source | states |
|---|---|---|
| `Hashing.DomainsSeparate` | `zkauthn/hash.go:72-99` | under an ideal hash no commitment, nullifier, empty leaf or leaf node stands for another, and each determines all its inputs |
| `Hashing.LabelsFit` | `zkauthn/hash.go:21-26` | a label of at most 31 bytes is an integer below 2^248, so it embeds without reduction |
| `Hashing.LabelsDiffer` | `zkauthn/hash.go:21-26` | labels of any lengths are one element only if they are one text |
| `Hashing.SymbolicIsIdeal` | `zkauthn/hash.go:59-77` | the assumption on the hash is satisfiable: digests as syntax trees meet it |
| `SparseTree.WriteLeafRefines` | `zkauthn/tree.go:187-229` | sparse refines dense: after writing or clearing any leaf the node table is the dense tree of the updated leaf map and the returned root is its root; any hash, depth, index |
| `SparseTree.WritePathCompletes` | `zkauthn/tree.go:200-222` | from a table stale only above a level, the rest of the loop completes the tree: the loop's invariant |
| `SparseTree.WritePathFrame` | `zkauthn/tree.go:200-222` | rows off the written root path keep their presence and value |
| `SparseTree.EmptyRepresents` | `zkauthn/service.go:166-176` | no rows at all stand for the tree without leaves, gaps filled from the zero table |
| `SparseTree.RepresentsUnique` | `zkauthn/tree.go:187-241` | the stored rows are a function of the leaf map alone |
| `SparseTree.DenseBinds` | `zkauthn/tree.go:187-229` | equal subtree hashes mean equal leaves below, level-0 and empty leaves included |
| `SparseTree.RootBinds` | `zkauthn/tree.go:187-229` | different live sets have different roots |
| `SparseTree.SameNodeIffSameUnder` | `zkauthn/tree.go:187-241` | two trees share a node exactly when they have the same leaves below it |
| `SparseTree.RowIffLeafUnder` | `zkauthn/tree.go:200-207` | a row is stored exactly where the subtree holds a live leaf |
| `SparseTree.StorageBound` | `zkauthn/tree.go:200-207` | at most depth rows per live credential, for any hash |
| `SparseTree.FoldOfTreePath` | `zkauthn/tree.go:255-268` | the tree's own leaf and siblings fold to the tree's node at every level |
| `SparseTree.FoldReachesRoot` | `zkauthn/proof.go:159-174` | a fold ends in the root exactly when it starts at the tree's leaf and uses the tree's siblings |
| `TreeTables.EmptyIsGood` | `zkauthn/tree.go:243-253` | the empty tables satisfy the invariant of committed tables |
| `TreeTables.NextLeaf` | `zkauthn/sql.go:99-100` | one more than the largest index present, zero when there is none |
| `TreeTables.NextLeafIsCount` | `zkauthn/sql.go:99-100` | indices are allocated in order without gaps |
| `TreeTables.UserRows` | `zkauthn/sql.go:111-114` | exactly the user's live leaves, in increasing order |
| `TreeTables.WriteLeafCatchesUp` | `zkauthn/tree.go:187-229` | one write makes tree and current root follow a one-leaf credential change, and publishes exactly that root |
| `TreeTables.IssueKeepsGood` | `zkauthn/tree.go:51-76` | an issuance that is not refused appends one row at the next index and keeps contiguous indices, unique commitments, the node table and the single current root |
| `TreeTables.RevokeRowsKeepsGood` | `zkauthn/tree.go:171-182` | clearing distinct live rows one after the other always succeeds, marks exactly them and keeps the invariant |
| `TreeTables.RevokeKeepsGood` | `zkauthn/tree.go:141-185` | both revocations always succeed, take exactly their leaves out of the live set, and keep the invariant |
| `TreeTables.PerformKeepsGood` | `zkauthn/tree.go:51-185` | every transaction keeps the invariant |
| `TreeHistory.PerformPublishes` | `zkauthn/sql.go:125-138` | the roots table changes exactly by publishing, in order, the root of every leaf map written |
| `TreeHistory.HistoryGood` | `zkauthn/tree.go:51-185` | every state of a serial history satisfies the invariant |
| `TreeHistory.HistoryExtends` | `zkauthn/sql.go:99-105` | along a history rows are never deleted, never change commitment or owner and never come back to life |
| `TreeHistory.LeafMapRootBinds` | `zkauthn/sql.go:128-138` | among leaf maps of commitments, equal roots iff equal maps |
| `TreeHistory.RevokedRootFrozen` | `zkauthn/sql.go:125-138` | after a revocation commits, the entry of every root over the revoked leaf is retired and never touched again, republication included |
| `TreeHistory.RevocationLatency` | `zkauthn/tree.go:270-275` | from the grace after the revocation's commit on, no root whose tree holds the revoked leaf is accepted |
| `TreeHistory.RevokeUserRevokesIssued` | `zkauthn/tree.go:159-185` | a credential issued to a name is not live after any later revocation of that name has committed |
| `TreeHistory.RevokeUserSparesOthers` | `zkauthn/sql.go:103-114` | a live credential issued to another name, or to none, is live right after it |
| `TreeHistory.RevokedRootWindow` | `zkauthn/sql.go:143-148` | the bound is tight: the root current before the revocation is accepted exactly while the grace, counted from the revoking transaction's start, lasts |
| `TreeHistory.RevocationRetiresCurrent` | `zkauthn/tree.go:141-185` | a revocation with something to revoke retires the root it found, at its own start time |
| `TreeHistory.RootsArePublished` | `zkauthn/sql.go:125-138` | a root is in the table exactly when some commit wrote a leaf map with that root |
| `TreeHistory.RepublishedIffRecurs` | `zkauthn/sql.go:128-138` | a root is found already in the table exactly when that very leaf map was published before |
| `TreeHistory.SameLeavesSameTree` | `zkauthn/sql.go:128-130` | same live leaves, same node rows and same current root, whatever produced them |
| `TreeHistory.DifferentLeavesDifferentRoots` | `zkauthn/sql.go:128-130` | in any two histories, equal current roots iff equal live sets |
| `TreeHistory.StorageIsCanonical` | `zkauthn/tree.go:200-207` | in every state of a history: a row iff a live leaf below, and at most depth rows per live credential |
| `TreeHistory.BatchIsFoldOfSingles` | `zkauthn/tree.go:159-185` | revoking a user's leaves in one transaction or one by one, in any order and at any times, ends in the same live set, rows and current root |
| `TreeHistory.OthersKeepTheirPaths` | `zkauthn/tree.go:159-185` | every other leaf survives the batch with a path that folds to the new root |
| `TreeHistory.OwnPathFolds` | `zkauthn/tree.go:255-268` | the path assembled for a live leaf folds to the current root |
| `TreeHistory.FoldsIffOwn` | `zkauthn/tree.go:255-268` | for a commitment, a path folds to the current root exactly when the leaf is live there and the siblings are the tree's |
| `TreeHistory.DropsAt` | `zkauthn/tree.go:171-182` | the a-th leaf map a batch writes lacks exactly its first a + 1 rows |
| `TreeHistory.MidbatchRetired` | `zkauthn/tree.go:171-182` | the root of every map reached inside a batch is left retired at the batch's start time |
| `TreeHistory.BatchLeavesPhantomRoots` | `zkauthn/tree.go:171-182` | in any history, after each row of a batch but the last, a root is published that no committed state before or after has as current, and in every later state it is accepted exactly while the grace from the batch's start lasts |
| `Writers.ExecuteKeepsRest` | `zkauthn/tree.go:51-76` | each statement leaves unchanged what the rest of its transaction will commit: the simulation behind serialisability |
| `Writers.FinishKeepsInvariant` | `zkauthn/sql.go:94-97` | a commit under the lock equals the transaction run alone, and waiting transactions are undisturbed |
| `Writers.EveryRunIsSerial` | `zkauthn/sql.go:94-138` | any interleaving of statements, waits, commits and rollbacks commits a serial history |
| `WriterRuns.TransactionCommits` | `zkauthn/tree.go:51-76` | with the lock free every operation that is not refused can be begun and run to a commit of exactly its own effect, whatever others wait |
| `WriterRuns.RefusedCommitsNothing` | `zkauthn/tree.go:51-76` | a refused one commits nothing however far it is run and however it ends |
| `WriterRuns.RollbackReleases` | `zkauthn/service.go:227-238` | a rollback removes its transaction and frees its lock, and changes nothing else |
| `WriterRuns.EverySerialHistoryRuns` | `zkauthn/sql.go:94-97` | every serial history from time zero on, start times out of commit order included, is the history of some interleaving |
| `Writers.EveryCommittedStateIsGood` | `zkauthn/tree.go:51-185` | in every interleaving every committed state has contiguous unique indices, the node table of the live leaves and, from the first write, exactly one current root, that of the live leaves |
| `Writers.RevocationLatencyOverRuns` | `zkauthn/tree.go:270-275` | revocation latency over every interleaving of writers |
| `Writers.OptimisticReadOverRuns` | `zkauthn/tree.go:98-138` | in every interleaving of writers, a path read while only issuances commit folds to the root it names, which was current at both of the attempt's root reads |
| `PathReader.ReadRoot` | `zkauthn/tree.go:243-253` | finds the row without a retirement time, or the empty tree's root |
| `PathReader.ReadSiblings` | `zkauthn/tree.go:255-268` | the loop's siblings, each from the tables its own statement sees |
| `PathReader.ReadPath` | `zkauthn/tree.go:98-138` | the loop of two attempts: unknown, revoked, the first attempt whose roots agree, or try again |
| `PathReader.CurrentRootIsRoot` | `zkauthn/tree.go:243-253` | in a committed state the current root read is the root of the live leaves, on the empty tree too |
| `PathReader.AttemptIsSnapshot` | `zkauthn/tree.go:116-133` | with only issuances committing, equal roots mean that nothing committed during the walk |
| `PathReader.OptimisticReadIsSnapshot` | `zkauthn/tree.go:98-138` | with only issuances committing during the call, each returned path folds to its root, which was current at both root reads |
| `PathReader.ReadOutcome` | `zkauthn/tree.go:98-138` | among issuances a live leaf's read is to be tried again exactly when something commits between the root reads of both attempts; otherwise it is the tree's path at the first root read of the earliest attempt without a commit |
| `PathReader.ReadRefusals` | `zkauthn/tree.go:101-115` | whatever commits, unknown and revoked are decided by the row first read |
| `PathReader.PathFoldsIff` | `zkauthn/tree.go:98-138` | whatever commits, an attempt's path folds to its root exactly when the leaf was still live at the first root read and no leaf below a sibling changed before that sibling was read |
| `PathReader.RepublishedRootFoolsReader` | `zkauthn/tree.go:98-138` | at every depth, a history and schedule with one revocation in which a returned path does not fold to its root |
| `TreeStore.ZeroTable` | `zkauthn/service.go:166-176` | entry l is the root of the empty subtree of height l |
| `TreeStore.Store.constructor` | `zkauthn/service.go:119-190` | a service over empty tables starts in the invariant with its zero table filled |
| `TreeStore.Store.Node` | `zkauthn/tree.go:231-241` | the stored value, or the zero of the level |
| `TreeStore.Store.WriteLeaf` | `zkauthn/tree.go:187-229` | the in-place loop ends in exactly the tables and root of the functional write the refinement is about |
| `TreeStore.Store.CurrentRoot` | `zkauthn/tree.go:243-253` | the dense root of the live leaves |
| `TreeStore.Store.Path` | `zkauthn/tree.go:255-268` | the tree's siblings of the index, with the given root and commitment |
| `TreeStore.Store.NextLeafIndex` | `zkauthn/sql.go:99-100` | the maximum index plus one |
| `TreeStore.Store.InsertCredential` | `zkauthn/tree.go:51-69` | the whole new state of an issuance, refusal by a full tree or a taken commitment, and the root returned |
| `TreeStore.Store.IssueCredential` | `zkauthn/tree.go:35-82` | every outcome and its cause; an issued credential sits at the next index and carries a path that folds to the current root; a refusal changes nothing |
| `TreeStore.Store.RevokeCredential` | `zkauthn/tree.go:141-156` | the whole new state; false, with nothing changed, exactly when the leaf was not live |
| `TreeStore.Store.RevokeCredentialsForUser` | `zkauthn/tree.go:159-185` | the loop ends in the batch transaction's state, never takes its no-rows branch, and leaves the user no live leaf |
| `TreeStore.Store.RootAccepted` | `zkauthn/tree.go:270-275` | the root of the live leaves is accepted whatever the grace; any other exactly while it has been retired for less than a positive grace |
| `TreeStore.SingleLeafPath` | `zkauthn/proof.go:180-206` | siblings are the zero table and the root is the fold over them |
| `TreeStore.SingleLeafPathIsTreePath` | `zkauthn/proof.go:180-206` | that path and root are those of the first credential written to an empty tree |
| `Oracle.MembershipValid` | `zkauthn/proof.go:149-174` | the loop accepts exactly the witnesses meeting all four conditions |
| `Oracle.OracleIsExact` | `zkauthn/proof.go:149-174` | for the current root: valid iff a live credential with that secret and attribute sits at the index, the path is the tree's own, the threshold is met and the nullifier is the credential's for the audience |
| `Oracle.ValidWitnessIsUnique` | `zkauthn/hash.go:86-97` | a valid witness has the secret and attribute its leaf was issued with, and two valid witnesses of one audience share a nullifier iff they share the secret |
| `Circuit.Hasher.Write` | `zkauthn/circuits.go:112-125` | appends blocks and leaves the chaining value |
| `Circuit.Hasher.Sum` | `zkauthn/circuits.go:112-126` | absorbs the buffer into the chaining value and keeps it |
| `Circuit.Hasher.Reset` | `zkauthn/circuits.go:123-123` | clears both |
| `Circuit.VerifyProof` | `zkauthn/circuits.go:116-119` | the gadget hashes the leaf once, then folds by the index bits, resetting the shared hasher before each hash |
| `Circuit.Define` | `zkauthn/circuits.go:101-128` | driving one hasher through all three hashes meets exactly the constraint relation |
| `Circuit.RangeCheck` | `zkauthn/circuits.go:102-106` | bit wires exist exactly for field elements of that many bits, and determine the value |
| `Circuit.BitsAreShifts` | `zkauthn/circuits.go:116-119` | bit l of the index wires is the parity of the index shifted by l |
| `Circuit.ComparisonIsInteger` | `zkauthn/circuits.go:121-122` | for range-checked operands the field difference fits 64 bits iff the integers compare |
| `Circuit.CircuitIsStatement` | `zkauthn/circuits.go:101-128` | for every assignment, some wires satisfy the circuit iff the statement without wires holds |
| `Circuit.CircuitEqualsOracle` | `zkauthn/circuits.go:101-128` | the satisfying assignments with a secret below 2^248 are exactly those assigned from witnesses the oracle accepts |
| `Circuit.CircuitTakesAnySecret` | `zkauthn/circuits.go:101-128` | every field element is the secret of some satisfying assignment, for every admissible attribute, threshold, index, path and audience |
| `Circuit.DeployedDepthFits` | `zkauthn/circuits.go:18-32` | index wires of the deployed depth do not wrap around the field |
| `Tokens.DecodeInvertsEncode` | `zkauthn/hash.go:128-145` | decoding undoes base64url encoding for every byte sequence |
| `Tokens.LettersAreTheAlphabet` | `zkauthn/hash.go:128-145` | the letters are those of table 2 of RFC 4648 |
| `Tokens.ValuesAreOfTheAlphabet` | `zkauthn/hash.go:148-161` | exactly those letters are decoded |
| `Tokens.EncodeInvertsDecode` | `zkauthn/hash.go:148-161` | encoding undoes decoding up to the unchecked low bits of the last letter |
| `Tokens.SecretsAreCanonical` | `zkauthn/hash.go:34-51` | every 31-byte value is a canonical field element below 2^248, injectively |
| `Tokens.ElementsRoundTrip` | `zkauthn/hash.go:28-57` | an integer's 32-byte element is canonical with its residue as value, and every canonical element is that of its value |
| `Tokens.LabelIsItsBytes` | `zkauthn/hash.go:21-32` | a label's field element is its bytes, right-aligned in 32 |
| `Tokens.NewChallengeToken` | `zkauthn/hash.go:128-145` | succeeds iff one of the first three reads is the first non-zero one with no error before; the token is read back as the field stored with it |
| `Tokens.TokenRoundTrip` | `zkauthn/hash.go:128-161` | the field read from a token is the one it was made with, and is accepted unreduced |
| `Tokens.TokensOfOneField` | `zkauthn/hash.go:148-161` | two accepted tokens give one field iff they differ at most in the last letter's four unchecked bits |
| `Encoding.PseudonymEmailInjective` | `zkauthn/protocol.go:401-401` | different nullifiers derive different emails |
| `Encoding.PseudonymEmailAt` | `zkauthn/protocol.go:401-401` | the email character by character: prefix, two hexadecimal digits a byte, suffix |
| `Encoding.LowerIffSameButCase` | `zkauthn/sql.go:190-200` | the unique index identifies exactly the texts that differ in the case of ASCII letters |
| `ClaimHolder.ProofsIsExact` | `zkauthz/zkauthz.go:97-132` | granted iff nothing was asked, or the load succeeded, no name is empty and every non-recurring name has as many grants as it is listed; takes exactly those or nothing |
| `ClaimHolder.GrantsAreConserved` | `zkauthz/zkauthz.go:74-132` | over any sequence of calls, grants added are grants held plus grants consumed |
| `ClaimHolder.RecurringIsRemembered` | `zkauthz/zkauthz.go:74-87` | over any sequence of calls the recurring names are those at the start and those added as recurring |
| `ClaimHolder.RecurringIsGranted` | `zkauthz/zkauthz.go:97-132` | such names are granted as often as asked, and nothing is spent |
| `ClaimHolder.OneShotIsGranted` | `zkauthz/zkauthz.go:97-132` | one-shot names are granted as often as they were added and not consumed |
| `ClaimHolder.Holder.constructor` | `zkauthz/zkauthz.go:59-66` | a holder per request, empty or with the session's recurring claims |
| `ClaimHolder.Holder.Add` | `zkauthz/zkauthz.go:74-87` | one more allowance, or one more recurring name |
| `ClaimHolder.Holder.CountRequired` | `zkauthz/zkauthz.go:113-122` | the counting loop: what each name needs, duplicates counted; stops at an empty name |
| `ClaimHolder.Holder.Covers` | `zkauthz/zkauthz.go:123-127` | the checking loop, in any iteration order |
| `ClaimHolder.Holder.Subtract` | `zkauthz/zkauthz.go:128-130` | the subtracting loop, in any iteration order |
| `ClaimHolder.Holder.Proofs` | `zkauthz/zkauthz.go:97-132` | verdict and new state are those of the exact, atomic specification; no counter goes negative |
| `ClaimHolder.AddToRequest` | `zkauthz/zkauthz.go:74-87` | fails exactly without the middleware |
| `ClaimHolder.ProofsOfRequest` | `zkauthz/zkauthz.go:97-104` | without the middleware only an empty list is granted |
| `ProtocolSafety.ConsumeFits` | `zkauthn/sql.go:68-76` | the single-use update leaves its call holding the row alone |
| `ProtocolSafety.ResolveFindsCommitted` | `zkauthn/sql.go:170-179` | a resolve finds only a committed account under the derived email; a call that has inserted one itself finds none |
| `ProtocolSafety.AdvanceFits` | `zkauthn/protocol.go:273-475` | every statement of every request keeps its call in order and apart from all others |
| `ProtocolSafety.CommitKeepsInvariant` | `zkauthn/service.go:227-238` | a commit keeps every table's invariant and disturbs no open transaction |
| `ProtocolSafety.CommitRecords` | `zkauthn/protocol.go:348-475` | what a committed success has written |
| `ProtocolSafety.RunKeepsInvariant` | `zkauthn/protocol.go:202-475` | the invariant holds after every run |
| `ProtocolTheorems.ChallengesAreSingleUse` | `zkauthn/sql.go:45-76` | over all interleavings an issued challenge backs at most one success, of its own purpose and session and before expiry, and is consumed iff a success used it |
| `ProtocolTheorems.ChallengesStayUsable` | `zkauthn/sql.go:45-66` | over every run a challenge issued at most 60 seconds ago that backs no success is in the table as it was issued, and until it expires any request that answers it can use it |
| `ProtocolTheorems.FailedCallsLeaveNothing` | `zkauthn/service.go:227-238` | a failed call is closed without writes, and nothing is committed |
| `ProtocolTheorems.NullifiersArePermanent` | `zkauthn/sql.go:202-215` | a committed nullifier row never changes again, whatever policy is set later |
| `ProtocolTheorems.NullifiersAreDisjoint` | `zkauthn/sql.go:190-215` | each nullifier row has exactly one of owner and consumption time |
| `ProtocolTheorems.LoginsConverge` | `zkauthn/protocol.go:400-429` | over all interleavings two logins return the same account iff they proved the same nullifier, under the email derived from it |
| `ProtocolTheorems.BoundNullifierNeverLogsIn` | `zkauthn/sql.go:165-179` | a nullifier burned, or bound to an account under another email, never yields a login |
| `ProtocolTheorems.RefusedLoginsLeaveNoAccount` | `zkauthn/protocol.go:348-380` | every account was registered elsewhere or belongs to a login that succeeded |
| `ProtocolTheorems.LiveEmailsDiffer` | `zkauthn/sql.go:190-200` | no two live accounts have emails equal but for case |
| `Accounts.DeletedAccountsNeverLogIn` | `zkauthn/sql.go:170-179` | a login submitted after an account was deleted never returns it |
| `Sessions.AdvanceWrites` | `zkauthn/protocol.go:359-377` | the session rows a call has written at each step; a login issues under an id nobody has used |
| `Sessions.CommittedSessions` | `zkauthn/protocol.go:359-377` | a commit changes the session tables by exactly those rows |
| `Sessions.SessionsHaveOneOrigin` | `zkauthn/protocol.go:335-390` | over all interleavings every live session was opened elsewhere in the application for its account and issued by no login, or was issued by exactly one login for the account that login returned |
| `Sessions.SessionsChangeOnly` | `zkauthn/protocol.go:359-369` | in every step of every run a session keeps its account while it lives, goes only by being ended or as the prior of a committing login, and appears only by being opened under a new id or issued by a committing login |
| `Sessions.ReadyCanCommit` | `zkauthn/protocol.go:352-356` | a call that has run all its statements holds its consumed challenge |
| `Sessions.SessionClaimsAreProved` | `zkauthn/protocol.go:431-462` | every stored session claim was proved for that session by a success under a recurring policy; one-shot claims are never stored |
| `Sessions.LoginReplacesSession` | `zkauthn/protocol.go:359-369` | a committing login replaces the session it came from by a new one of its account and touches no other |
| `Provenance.CallsAreSubmitted` | `zkauthn/protocol.go:485-508` | every call of a run has its submission |
| `Provenance.SuccessesAreVouched` | `zkauthn/protocol.go:485-522` | between its submission and the start of its transaction every committed membership request read the policy it was verified under, its root and nullifier being canonical, and found its root accepted; every committed step-up found its session live and its caller's inside its transaction |
| `Provenance.SuccessesPeeked` | `zkauthn/protocol.go:224-242` | every success had found its challenge unconsumed, unexpired and its own between its submission and its transaction |
| `Provenance.RowsAreIssued` | `zkauthn/sql.go:45-50` | every challenge row carries the purpose, session and lifetime of the action that issued it |
| `Provenance.SuccessesAreTimely` | `zkauthn/sql.go:68-76` | every success used a challenge issued for its purpose and session less than the lifetime before its transaction began |
| `Conservation.BurnsAreDistinct` | `zkauthn/sql.go:202-206` | committed burns of a claim are as many as the nullifiers burned |
| `Conservation.RunConserves` | `zkauthn/protocol.go:446-474` | every step of every interleaving keeps the balance of allowances |
| `Conservation.OneShotIsConserved` | `zkauthn/protocol.go:446-474` | consumed plus held allowances equal distinct nullifiers burned plus commits pending plus commits lost after the sink |
| `Conservation.LeakedIffFailsAfterSink` | `zkauthn/protocol.go:469-473` | an allowance leaks exactly when a transaction fails after its sink |
| `Conservation.BurnsAccountIff` | `zkauthn/protocol.go:446-474` | burns account for every allowance iff no commit of the claim is pending and none failed after its sink |
| `Conservation.OneActionPerNullifier` | `zkauthn/protocol.go:431-474` | when commits succeed once the sink has, a claim's consumed allowances are at most the nullifiers burned for it |
| `Conservation.BurnsAreForOneClaim` | `zkauthn/sql.go:202-206` | a nullifier is burned for one claim only |
| `Conservation.ConsumedAtMostBurned` | `zkauthn/protocol.go:431-474` | for any distinct claims together, consumed allowances are at most the nullifiers burned for any of them |
| `Conservation.OneActionPerSecret` | `zkauthn/protocol.go:431-474` | for any distinct claims sharing an audience, the allowances consumed of all of them are at most the secrets whose nullifiers were proved |
| `Conservation.LostCommitKeepsGrant` | `zkauthn/protocol.go:469-473` | from every reachable state with a one-shot call at its sink, losing the commit lets the request consume a grant while log and tables stay as they were and the nullifier unburned |
| `Progress.ClaimReachesSink` | `zkauthn/protocol.go:435-474` | in every run a well-formed one-shot proof that no refusal or lock stands in the way of reaches its sink |
| `Progress.UnhinderedIff` | `zkauthn/protocol.go:485-530` | what standing in the way means, in the tables' own terms |
| `Progress.OneShotSucceeds` | `zkauthn/protocol.go:435-474` | ... and succeeds: its nullifier is burned and its request holds one more allowance |
| `Progress.RecurringSucceeds` | `zkauthn/protocol.go:446-462` | in every run such a recurring proof succeeds: the nullifier is the account's and the session has the claim |
| `Progress.SessionClaimsAreGranted` | `zkauthz/zkauthz.go:56-72` | a later request of a session is granted exactly the claims stored for it |
| `Progress.OtherRequestsHaveNothing` | `zkauthz/zkauthz.go:56-72` | a request whose claims could not be loaded is refused with that error, an anonymous one as having proved nothing |
| `Progress.FirstLoginSucceeds` | `zkauthn/protocol.go:335-429` | in every run such a first login with fresh ids succeeds: its account has the derived email, its session is the account's and has the claim |
| `Progress.CanLogInIff` | `zkauthn/sql.go:190-200` | what a first login needs, in the tables' own terms |
| `Progress.LaterLoginSucceeds` | `zkauthn/protocol.go:400-429` | in every run a later login of a nullifier that has its account succeeds with that account |
| `Progress.OvertakenLoginSucceeds` | `zkauthn/protocol.go:400-429` | a login overtaken by another first login of its nullifier, before its first look, between look and insert or after its insert was refused, succeeds with the account the other committed |
| `Progress.StepUpSucceeds` | `zkauthn/protocol.go:273-327` | in every run a step-up of a live session by its account with a usable challenge succeeds |
| `Progress.CanStepUpIff` | `zkauthn/protocol.go:273-327` | what a step-up needs, in the tables' own terms |
| `Progress.OutsideSessionStepsUp` | `zkauthn/protocol.go:273-327` | in particular for a session the application opened itself for any live account |
| `EndToEnd.RootsFollow` | `zkauthn/sql.go:143-148` | the roots the protocol reads are those of the tree transactions committed so far |
| `EndToEnd.AcceptedProofHasLeaf` | `zkauthn/proof.go:149-174` | a sound proof against a root in the table is about a leaf of a published tree that commits to its secret and attribute |
| `EndToEnd.CheckedAfterRevocation` | `zkauthn/protocol.go:513-522` | a root check made once the grace has passed since a revocation accepts no root against which a sound proof of the revoked leaf exists |
| `EndToEnd.RevokedLeafProvesNothing` | `zkauthn/protocol.go:485-522` | end to end, over all interleavings of requests and tree transactions: a Login or ProveClaim submitted once the grace has passed since a revocation never succeeds with a sound proof of the revoked leaf |
| `EndToEnd.RevokedLeafProvesNothingOverRuns` | `zkauthn/protocol.go:485-522` | the same with the tree's own transactions interleaved statement by statement |
| `EndToEnd.SoundProofsAreOfCredentials` | `zkauthn/proof.go:149-174` | a success with a sound proof used an issued credential, under the commitment of its own secret and attribute |
| `EndToEnd.OneActionPerCredential` | `zkauthn/protocol.go:431-474` | one credential in one audience buys at most one action: with sound proofs, the allowances consumed of any distinct settled claims sharing an audience are together at most the credentials ever issued |
| `EndToEnd.OneActionPerCredentialOverRuns` | `zkauthn/protocol.go:431-474` | the same with the tree's own transactions interleaved statement by statement |
| `Instances.NamedIsIdeal` | `zkauthn/hash.go:53-77` | a hash on byte strings with the program's encoding of integers and two chosen digests that are canonical field elements meets the ideal-hash assumption |
| `Instances.CodeNames` | `zkauthn/hash.go:53-77` | at every depth one such hash makes a tree's root and its leaf's nullifier canonical |
| `Instances.FollowHistory` | `zkauthn/sql.go:143-148` | every timed tree history is followed by some run of the protocol |
| `Instances.LiveCredentialProves` | `zkauthn/protocol.go:435-474` | a credential live after any history can be used: whatever the wait and the grace, some run follows the history and then succeeds with a sound proof of it |
| `Instances.RevocationTheoremApplies` | `zkauthn/protocol.go:485-522` | at every depth and grace all hypotheses of the end-to-end revocation theorem hold together: another leaf is revoked, the grace passes and a sound proof succeeds |

## Left out

- Groth16 setup, proving, verification, keys and circuit pins: library calls. In the protocol machine verification is a
  step that may succeed or fail; the theorems of `EndToEnd.dfy` take sound proofs as their
  hypothesis.
- MiMC and SHA-256 internals: any hash, or an ideal one where binding is the point; challenge rows are keyed by an
  abstract token hash, so the field-mismatch refusal, which needs two tokens with one hash, does not arise.
- Bodies of the proof library's gadgets: bit decomposition, Merkle proof and bounded comparator are modelled by their
  contracts, stated at the head of `Circuit.dfy`.
- The product of the challenge with itself in both circuits: it constrains nothing.
- KnowledgeCircuit, KnowledgeValid, EnrollKnowledge: short cases of the above or a small decision table.
- Sessions: a map from session to account, opened and ended elsewhere at any time; MFA timestamps, rotation, cookies and
  lookup are not modelled, and Login's session statements are one step. Uuids and session ids are numbers nobody has used.
- That the principal of a request is the owner of its session: `ProveClaim` and `VerifyKnowledge` requests carry any
  session and account, which only admits more runs.
- Rate limiting, semaphores, dummy verification and timing.
- Claim-name validation and EnsureClaim's checks: policies are set to arbitrary values.
- HTTP plumbing, SQL prefixes, error classification, audit hooks.
- User-deletion cascades and email changes: accounts are registered and soft-deleted only.
- Transactions supplied by the caller: each operation owns its transaction.
- The path statements inside IssueCredential's transaction are not steps of the `Writers.dfy` machine, since they write
  nothing; `TreeStore.dfy` has them.
- An `issuedTo` that is not a uuid, which the database refuses; the index guard in RevokeCredentialsForUser, which no
  stored index reaches.
- GenerateSecret: the loop of newChallengeToken without the token.
- Deadlock, liveness and lock timeouts in Postgres; a waiting statement is one that changes nothing until it can run.
- Sub-second arithmetic of the grace: times are integers.
- lower(email) beyond ASCII.
