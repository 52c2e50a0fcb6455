/** The proposals of main.go's governance handlers: `/propose` opens a
    proposal (a `Vote` record with no voter yet) and `/vote` records a single
    decision on it, refusing unknown ids and proposals that already have a
    voter. */
module Governance {

  /** A 12-byte `bson.ObjectId`. */
  type ObjectId = s: seq<bv8> | |s| == 12 witness [0, 0, 0, 0, 0, 0, 0, 0, 0, 0, 0, 0]

  /** The `Vote` record: a proposal together with its (single) decision. */
  datatype Vote = Vote(id: ObjectId, proposal: string, voter: string, approved: bool, timestamp: string)

  /** A proposal is decided once its voter field is non-empty. */
  predicate Decided(v: Vote) {
    v.voter != ""
  }

  /** The `proposals` collection, keyed by `_id`. */
  type Store = map<ObjectId, Vote>

  /** Every record is stored under its own id, as a collection keyed by
      `_id` guarantees. */
  ghost predicate KeyedById(s: Store) {
    forall k :: k in s ==> s[k].id == k
  }

  /** The outcomes of `/vote`: 404 not found, 409 conflict, or the updated
      record. */
  datatype VoteResult = NotFound | AlreadyDecided | Recorded(updated: Vote)

  /** The record `/propose` creates: open and not approved, with the given
      id, text and time. */
  function NewProposal(id: ObjectId, text: string, now: string): (v: Vote)
    ensures !Decided(v) && !v.approved
    ensures v.id == id && v.proposal == text && v.timestamp == now
  {
    Vote(id, text, "", false, now)
  }

  /** The store after `/propose`: the new open proposal is added under its
      id and no other proposal changes. */
  function WithProposal(s: Store, id: ObjectId, text: string, now: string): (s': Store)
    ensures s'.Keys == s.Keys + {id} && s'[id] == NewProposal(id, text, now)
    ensures forall k :: k in s && k != id ==> s'[k] == s[k]
  {
    s[id := NewProposal(id, text, now)]
  }

  /** The check-then-set of `/vote`: look the proposal up, refuse it if it
      already has a voter, otherwise set voter and approval. */
  function Cast(s: Store, id: ObjectId, voter: string, approve: bool): (outcome: (VoteResult, Store))
    ensures outcome.0 == NotFound <==> id !in s
    ensures outcome.0 == AlreadyDecided <==> id in s && Decided(s[id])
    ensures outcome.0.Recorded? <==> id in s && !Decided(s[id])
    ensures !outcome.0.Recorded? ==> outcome.1 == s
  {
    if id !in s then (NotFound, s)
    else if s[id].voter != "" then (AlreadyDecided, s)
    else
      var updated := s[id].(voter := voter, approved := approve);
      (Recorded(updated), s[updated.id := updated])
  }

  lemma ProposeKeyedById(s: Store, id: ObjectId, text: string, now: string)
    requires KeyedById(s)
    ensures KeyedById(WithProposal(s, id, text, now))
  {
  }

  /** A successful vote on a well-keyed store sets the voter and the
      approval of the target proposal and changes nothing else: its id,
      text and time, and every other proposal, stay as they were. */
  lemma CastRecorded(s: Store, id: ObjectId, voter: string, approve: bool)
    requires KeyedById(s) && id in s && !Decided(s[id])
    ensures var (r, s') := Cast(s, id, voter, approve);
            r.Recorded? && s'.Keys == s.Keys && s'[id] == r.updated &&
            r.updated.id == id && r.updated.proposal == s[id].proposal &&
            r.updated.timestamp == s[id].timestamp &&
            r.updated.voter == voter && r.updated.approved == approve &&
            KeyedById(s') &&
            forall k :: k in s && k != id ==> s'[k] == s[k]
  {
  }

  /** Once a vote with a non-empty voter has been recorded, any later vote
      on that proposal is refused and changes nothing. */
  lemma SecondVoteRefused(s: Store, id: ObjectId, voter: string, approve: bool, voter2: string, approve2: bool)
    requires KeyedById(s) && voter != ""
    requires Cast(s, id, voter, approve).0.Recorded?
    ensures var s1 := Cast(s, id, voter, approve).1;
            Cast(s1, id, voter2, approve2) == (AlreadyDecided, s1)
  {
  }

  /** A vote with an empty voter is recorded but leaves the proposal open,
      so a later vote on it is accepted as well. */
  lemma EmptyVoterLeavesOpen(s: Store, id: ObjectId, approve: bool, voter2: string, approve2: bool)
    requires KeyedById(s) && id in s && !Decided(s[id])
    ensures var (r, s1) := Cast(s, id, "", approve);
            r.Recorded? && !Decided(s1[id]) && Cast(s1, id, voter2, approve2).0.Recorded?
  {
  }

  /** One `/vote` request. */
  datatype Ballot = Ballot(id: ObjectId, voter: string, approve: bool)

  /** The store after serving `bs` in order. */
  function Run(s: Store, bs: seq<Ballot>): Store
    decreases |bs|
  {
    if bs == [] then s else Run(Cast(s, bs[0].id, bs[0].voter, bs[0].approve).1, bs[1..])
  }

  /** Voting never adds or removes proposals, and a decided proposal is
      never changed again by any sequence of votes. */
  lemma {:induction false} RunKeepsDecided(s: Store, bs: seq<Ballot>, id: ObjectId)
    requires KeyedById(s)
    ensures Run(s, bs).Keys == s.Keys && KeyedById(Run(s, bs))
    ensures id in s && Decided(s[id]) ==> Run(s, bs)[id] == s[id]
    decreases |bs|
  {
    if bs != [] {
      var b := bs[0];
      var s1 := Cast(s, b.id, b.voter, b.approve).1;
      if b.id in s && !Decided(s[b.id]) {
        CastRecorded(s, b.id, b.voter, b.approve);
      }
      RunKeepsDecided(s1, bs[1..], id);
    }
  }

  /** How many of the votes in `bs` on `id` were recorded with a non-empty
      voter, i.e. decided the proposal. */
  function Decisions(s: Store, bs: seq<Ballot>, id: ObjectId): nat
    decreases |bs|
  {
    if bs == [] then 0
    else
      var b := bs[0];
      var (r, s1) := Cast(s, b.id, b.voter, b.approve);
      (if b.id == id && b.voter != "" && r.Recorded? then 1 else 0) + Decisions(s1, bs[1..], id)
  }

  /** A proposal is decided at most once, and never if it is unknown or
      already decided when the votes start. Votes with an empty voter do
      not count as decisions. */
  lemma {:induction false} DecidedAtMostOnce(s: Store, bs: seq<Ballot>, id: ObjectId)
    requires KeyedById(s)
    ensures Decisions(s, bs, id) <= if id in s && !Decided(s[id]) then 1 else 0
    decreases |bs|
  {
    if bs != [] {
      var b := bs[0];
      var (r, s1) := Cast(s, b.id, b.voter, b.approve);
      if r.Recorded? {
        CastRecorded(s, b.id, b.voter, b.approve);
      }
      DecidedAtMostOnce(s1, bs[1..], id);
    }
  }

  /** The governance scenario: a new proposal is open; a first vote with a
      voter decides it; a second vote is refused and leaves the decision. */
  lemma ProposeVoteScenario(s: Store, id: ObjectId, text: string, now: string)
    requires KeyedById(s) && id !in s
    ensures var s1 := WithProposal(s, id, text, now);
            var (r2, s2) := Cast(s1, id, "bob", true);
            var (r3, s3) := Cast(s2, id, "carol", false);
            !Decided(s1[id]) &&
            r2 == Recorded(Vote(id, text, "bob", true, now)) &&
            r3 == AlreadyDecided && s3[id] == Vote(id, text, "bob", true, now)
  {
  }

  /** The proposals as the handlers see them. */
  class Proposals {
    var store: Store

    ghost predicate Valid()
      reads this
    {
      KeyedById(store)
    }

    /** The collection as it is at start-up. */
    constructor (loaded: Store)
      requires KeyedById(loaded)
      ensures Valid() && store == loaded
    {
      store := loaded;
    }

    /** `/propose`: record an open proposal under a fresh id (the source draws
        it from bson.NewObjectId()). */
    method Propose(id: ObjectId, text: string, now: string) returns (proposal: Vote)
      requires Valid() && id !in store
      modifies this
      ensures Valid()
      ensures proposal == NewProposal(id, text, now)
      ensures store == WithProposal(old(store), id, text, now)
    {
      proposal := Vote(id, text, "", false, now);
      store := store[proposal.id := proposal];
    }

    /** `/vote`: find the proposal, refuse it if it has a voter, otherwise set
        the voter and the approval and write the record back under its id. */
    method CastVote(id: ObjectId, voter: string, approve: bool) returns (r: VoteResult)
      requires Valid()
      modifies this
      ensures Valid()
      ensures (r, store) == Cast(old(store), id, voter, approve)
    {
      if id !in store {
        return NotFound;
      }
      var proposal := store[id];
      if proposal.voter != "" {
        return AlreadyDecided;
      }
      proposal := proposal.(voter := voter);
      proposal := proposal.(approved := approve);
      store := store[proposal.id := proposal];
      r := Recorded(proposal);
      CastRecorded(old(store), id, voter, approve);
    }
  }
}
