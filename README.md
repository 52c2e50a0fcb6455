# GoBlockChain core, modelled in Dafny

GoBlockChain is a small Go web service (`main.go`). It has two cores, and this project models both.

- **Block chain.** An in-memory slice of `Block` records is linked by SHA-256 digests. `calculateHash` hashes the block's index, timestamp, data, previous hash and miner, joined with no separators. `createNewBlock` derives the successor of a block. The `/addBlock` handler appends the successor of the last block to the chain.
- **Governance.** A collection of `Vote` records stands for proposals. `/propose` opens a record with no voter. `/vote` refuses an unknown id (404) and a record that already has a voter (409). Otherwise it sets the voter and the approval.

Files:

- `Decimal.dfy` (module `Decimal`) models Go's `%d` formatting and proves that it can be read back.
- `Chain.dfy` (module `Chain`) holds `Block`, the digest, `CreateNewBlock`, the linkage predicate `Linked`, and the `Blockchain` class with its `AddBlock` method.
- `Governance.dfy` (module `Governance`) holds the `Vote` record, the vote transition `Cast`, and the `Proposals` class with its `Propose` and `CastVote` methods.

Modelling choices:

- SHA-256 followed by hex encoding (FIPS 180-4, RFC 4648) is a parameter `h: string -> string` of type `HashFn`. The model assumes only that it is a function, i.e. deterministic. It assumes no injectivity and no collision resistance.
- `time.Now().String()` and `bson.NewObjectId()` are method parameters. They are `now` and a fresh `id`.
- Go's `int` index is a 64-bit integer, and `Index + 1` wraps at the top of the range (`Inc`). So `Linked` asks for `Inc` of the previous index. `LinkedIndex` shows that this is `+ 1` whenever the indices do not exceed the largest 64-bit value.
- `float64` Reward is carried as its 64-bit pattern. The program never computes with it.

What main.go does and does not guarantee:

- main.go has no routine that checks a loaded chain. `Linked` is therefore only a specification predicate.
- `/addBlock` indexes `Blockchain[len(Blockchain)-1]` (main.go:109), which panics on an empty chain. So `AddBlock` requires a non-empty chain. The program never creates a first block itself; it extends whatever the store held at start-up.
- The digest cannot by itself reveal every edit to a block. The fields are joined without separators, and the reward is not hashed.
  - `IndexTimestampAmbiguous` shows two blocks with different index and timestamp that get the same digest. `Linked` still catches such an index edit through its index check (`IndexEditBreaksLinked`).
  - Two edits leave a linked chain linked. `TimestampDataShiftKeepsLinked` moves characters between timestamp and data. `RewardEditKeepsLinked` rewrites a reward.
- A vote whose voter is the empty string is accepted, and the proposal stays open (`EmptyVoterLeavesOpen`). "Decided at most once" therefore holds only for votes with a non-empty voter (`DecidedAtMostOnce`).

## Model

| member | source | states |
|---|---|---|
| `Decimal.NatDigits` | main.go:46 | the `%d` rendering of a non-negative value is a non-empty digit string with no leading zero, one character long exactly for values below 10 |
| `Decimal.FormatInt` | main.go:46 | `%d` of an integer starts with '-' exactly when it is negative, followed by (or consisting of) a digit string |
| `Decimal.FormatIntRoundTrip` | main.go:46 | every integer is read back from its `%d` rendering |
| `Decimal.FormatIntInjective` | main.go:46 | distinct indices have distinct `%d` renderings |
| `Chain.IncModulo` | main.go:54 | Go's `Index + 1` on a 64-bit `int` (`Inc`) is addition of one modulo 2^64, and equals plain `+ 1` exactly below the largest value |
| `Chain.Encode` | main.go:46 | the `%d%s%s%s%s` string is as long as the five fields together and starts with the `%d` rendering of the index |
| `Chain.CalculateHash` | main.go:45-49 | the digest is the hash of the encoding of the block with its stored hash and reward cleared, so neither of them affects it |
| `Chain.EncodeShift` | main.go:46 | re-splitting the same characters between timestamp and data leaves the digest input unchanged |
| `Chain.CalculateHashFields` | main.go:45-49 | the digest depends only on index, timestamp, data, previous hash and miner; reward and stored hash do not affect it |
| `Chain.IndexTimestampAmbiguous` | main.go:46 | because the fields are joined without separators, blocks with index 1 and timestamp "23" and with index 12 and timestamp "3" get the same digest under every hash function |
| `Chain.IndexEditBreaksLinked` | main.go:54 | changing the index of any block after the first breaks a linked chain, whatever its timestamp is changed to |
| `Chain.CreateNewBlock` | main.go:52-63 | the new block has the next (64-bit) index, the predecessor's hash as previous hash, the given time, data, miner and reward, and carries its own digest |
| `Chain.CreateNewBlockSiblings` | main.go:52-63 | two successors of one predecessor, whatever their data, miner, reward and time, share index and previous hash, and each extends the predecessor to a linked two-block chain: the function does not advance on its own |
| `Chain.Linked` | main.go:109-111 | the chain invariant: a chain of at most one block is linked, and in a longer linked chain the last block points at its predecessor's hash with the next index |
| `Chain.AppendBlock` | main.go:109-111 | the handler's append adds exactly one block, keeps every earlier block, and the new block follows the old last block with the caller's data, miner, reward and time |
| `Chain.AppendBlockLinked` | main.go:109-111 | the chain is linked after the append exactly when it was linked before |
| `Chain.ServeLinked` | main.go:109-111 | any sequence of `/addBlock` requests on a linked chain only extends it, by one block per request, and leaves it linked |
| `Chain.LinkedIndex` | main.go:54 | in a linked chain whose first index plus its length minus one does not exceed the largest 64-bit value, the block at position i has index i more than the first |
| `Chain.ServeIndices` | main.go:109-111 | serving n requests on a one-block chain with index g, where g + n does not exceed the largest 64-bit value, gives exactly the indices g, g+1, ..., g+n |
| `Chain.RewardEditKeepsLinked` | main.go:45-49 | rewriting the reward of any block keeps a linked chain linked, so the linkage cannot reveal it |
| `Chain.TimestampDataShiftKeepsLinked` | main.go:46 | moving characters between a block's timestamp and data keeps a linked chain linked |
| `Chain.Blockchain.constructor` | main.go:89 | the chain starts as the sequence loaded at start-up |
| `Chain.Blockchain.AddBlock` | main.go:109-111 | on a non-empty chain, appends the successor of the last block, returns it, leaves earlier blocks unchanged and preserves linkage |
| `Governance.NewProposal` | main.go:135-141 | the record `/propose` creates is open and not approved, with the given id, text and time |
| `Governance.WithProposal` | main.go:135-141 | adding a proposal adds exactly its id, stores the new open record under it, and changes no other proposal |
| `Governance.ProposeKeyedById` | main.go:135-141 | after a proposal is added, every record is still stored under its own id |
| `Governance.Cast` | main.go:169-186 | the vote step is NotFound exactly for an unknown id, AlreadyDecided exactly for a proposal with a voter, and Recorded exactly otherwise; both refusals leave the store unchanged |
| `Governance.CastRecorded` | main.go:182-186 | a recorded vote sets only the voter and approval of its proposal; id, text, time, the set of ids and every other proposal stay as they were |
| `Governance.SecondVoteRefused` | main.go:176-186 | after a vote with a non-empty voter is recorded, any further vote on that id is refused and changes nothing |
| `Governance.EmptyVoterLeavesOpen` | main.go:182 | a vote with an empty voter is recorded, but the proposal stays open and a later vote is accepted too |
| `Governance.RunKeepsDecided` | main.go:167-191 | no sequence of votes adds or removes a proposal or changes one that is already decided |
| `Governance.DecidedAtMostOnce` | main.go:176-186 | across any sequence of votes, at most one vote with a non-empty voter is recorded on a proposal, and none if it was unknown or already decided |
| `Governance.ProposeVoteScenario` | main.go:135-186 | a proposal opened and then voted on by "bob" records bob's approval; a following vote by "carol" is refused and the decision stays |
| `Governance.Proposals.constructor` | main.go:144 | the collection starts as loaded, with every record under its own id |
| `Governance.Proposals.Propose` | main.go:135-141 | stores the open record under the fresh id and returns it; every other record is unchanged |
| `Governance.Proposals.CastVote` | main.go:167-186 | the outcome and the new collection are those of the vote transition `Cast`, and records stay under their own ids |

## Left out

- HTTP routing, JSON request decoding, responses and the `/blocks` listing are not modelled. They are transport glue.
- The API-key middleware is not modelled. It is one comparison against a constant.
- MongoDB is not modelled. This covers the session set-up, the sorted load, and the insert, find and update calls. The chain and the proposal collection are modelled as in-memory state.
- The in-memory append in `/addBlock` happens before the insert. A failed insert is only logged and does not undo the append. The model has no store, so it cannot show this.
- A failed `/propose` insert or `/vote` update returns an error. The model has no store, so it has no such failure.
- A `FindId` that fails for a reason other than an unknown id also answers 404. The model has only the unknown-id case.
- `Chain.Blockchain.AddBlock` requires a non-empty chain. The handler panics on an empty one (main.go:109), and the model has no panic.
- `Governance.Proposals.Propose` requires the id to be fresh. This stands for `bson.NewObjectId()`, which produces unique ids. A duplicate-key insert failure is not modelled.
- The internals of SHA-256 and hex encoding are not modelled. They are foreign library calls, so the hash is a parameter with no properties. For the same reason, tamper detection is not claimed.
- `time.Now().String()` is not modelled. Its format is unknown to the model, so any string can be the timestamp.
- The `float64` reward has no arithmetic. It is carried as a bit pattern.
- Concurrency is not modelled. This covers the unsynchronised global slice and the race between the find and the update in `/vote`. The model is sequential.
