/** The vote ledger: one vote per (user, target id, target type), toggled by `vote`
    through the states none / upvoted / downvoted, and read back by `getUserVote`. */
module VoteLedger {
  import opened Wrappers
  import opened Seqs
  import opened ForumTypes

  /** The lookup key of a vote. */
  datatype VoteKey = VoteKey(userId: string, targetId: string, targetType: TargetType)

  function KeyOf(v: Vote): VoteKey {
    VoteKey(v.userId, v.targetId, v.targetType)
  }

  function HasKey(key: VoteKey): Vote -> bool {
    v => KeyOf(v) == key
  }

  /** The ledger invariant: no two votes share a key. */
  ghost predicate UniqueVoteKeys(votes: seq<Vote>) {
    forall i, j :: 0 <= i < j < |votes| ==> KeyOf(votes[i]) != KeyOf(votes[j])
  }

  /** The `findIndex` of an existing vote under `key`. */
  function FindVote(votes: seq<Vote>, key: VoteKey): Option<nat> {
    FirstIndex(votes, HasKey(key))
  }

  /** The type of the (first) vote under `key`, or None when there is none. */
  function LookupVote(votes: seq<Vote>, key: VoteKey): (r: Option<VoteType>)
    ensures r.None? <==> forall i :: 0 <= i < |votes| ==> KeyOf(votes[i]) != key
    ensures r.Some? ==> exists i :: 0 <= i < |votes| && KeyOf(votes[i]) == key && votes[i].voteType == r.value
    ensures UniqueVoteKeys(votes) ==>
      forall i :: 0 <= i < |votes| && KeyOf(votes[i]) == key ==> r == Some(votes[i].voteType)
  {
    match FindVote(votes, key)
    case None => None
    case Some(i) => Some(votes[i].voteType)
  }

  /** The toggle table: repeating the current vote cancels it, anything else becomes the new state. */
  function NextState(prior: Option<VoteType>, vt: VoteType): Option<VoteType> {
    if prior == Some(vt) then None else Some(vt)
  }

  /** One `vote` call on the ledger: insert when absent, delete when the same type is
      repeated, flip the type in place otherwise. `voteId` and `now` stand for the fresh
      UUID and the clock reading of the new record. */
  function ToggleVote(votes: seq<Vote>, key: VoteKey, vt: VoteType, voteId: string, now: int): (r: seq<Vote>)
    ensures LookupVote(votes, key).None? ==>
      && |r| == |votes| + 1 && r[..|votes|] == votes
      && r[|votes|] == Vote(voteId, key.userId, key.targetId, key.targetType, vt, now)
    ensures LookupVote(votes, key) == Some(vt) ==>
      && |r| == |votes| - 1
      && (forall v :: v in r ==> v in votes)
      && (forall j :: 0 <= j < |votes| && KeyOf(votes[j]) != key ==> votes[j] in r)
    ensures LookupVote(votes, key).Some? && LookupVote(votes, key) != Some(vt) ==>
      && |r| == |votes|
      && forall j :: 0 <= j < |votes| ==>
           r[j] == votes[j] || (KeyOf(votes[j]) == key && r[j] == votes[j].(voteType := vt))
    ensures LookupVote(votes, key) == Some(vt) ==>
      exists i :: && 0 <= i < |votes| && KeyOf(votes[i]) == key
                  && (forall j :: 0 <= j < i ==> KeyOf(votes[j]) != key)
                  && r == votes[..i] + votes[i + 1..]
    ensures LookupVote(votes, key).Some? && LookupVote(votes, key) != Some(vt) ==>
      exists i :: && 0 <= i < |votes| && KeyOf(votes[i]) == key
                  && (forall j :: 0 <= j < i ==> KeyOf(votes[j]) != key)
                  && r == votes[i := votes[i].(voteType := vt)]
  {
    match FindVote(votes, key)
    case None => votes + [Vote(voteId, key.userId, key.targetId, key.targetType, vt, now)]
    case Some(i) =>
      if votes[i].voteType == vt then
        var r := votes[..i] + votes[i + 1..];
        assert forall k :: 0 <= k < |r| ==> r[k] == if k < i then votes[k] else votes[k + 1];
        assert forall j :: 0 <= j < |votes| && j != i ==> votes[j] == if j < i then r[j] else r[j - 1];
        r
      else votes[i := votes[i].(voteType := vt)]
  }

  /** After a toggle, the lookup under the same key reports the toggle table's next state. */
  lemma ToggleNextState(votes: seq<Vote>, key: VoteKey, vt: VoteType, voteId: string, now: int)
    requires UniqueVoteKeys(votes)
    ensures LookupVote(ToggleVote(votes, key, vt, voteId, now), key) == NextState(LookupVote(votes, key), vt)
  {
    var r := ToggleVote(votes, key, vt, voteId, now);
    match FindVote(votes, key)
    case None =>
      FirstIndexIs(r, HasKey(key), |votes|);
    case Some(i) =>
      if votes[i].voteType == vt {
        assert forall k :: 0 <= k < |r| ==> r[k] == if k < i then votes[k] else votes[k + 1];
      } else {
        FirstIndexIs(r, HasKey(key), i);
      }
  }

  /** A toggle under one key leaves the lookup under every other key unchanged. */
  lemma ToggleFrame(votes: seq<Vote>, key: VoteKey, vt: VoteType, voteId: string, now: int, other: VoteKey)
    requires other != key
    ensures LookupVote(ToggleVote(votes, key, vt, voteId, now), other) == LookupVote(votes, other)
  {
    match FindVote(votes, key)
    case None =>
      FirstIndexAppend(votes, Vote(voteId, key.userId, key.targetId, key.targetType, vt, now), HasKey(other));
    case Some(i) =>
      if votes[i].voteType == vt {
        FirstIndexRemove(votes, i, HasKey(other));
      } else {
        FirstIndexUpdate(votes, i, votes[i].(voteType := vt), HasKey(other));
      }
  }

  /** Every toggle keeps at most one vote per key. */
  lemma ToggleKeepsUnique(votes: seq<Vote>, key: VoteKey, vt: VoteType, voteId: string, now: int)
    requires UniqueVoteKeys(votes)
    ensures UniqueVoteKeys(ToggleVote(votes, key, vt, voteId, now))
  {
    var r := ToggleVote(votes, key, vt, voteId, now);
    match FindVote(votes, key)
    case None =>
      assert forall j :: 0 <= j < |votes| ==> r[j] == votes[j];
    case Some(i) =>
      if votes[i].voteType == vt {
        assert forall k :: 0 <= k < |r| ==> r[k] == if k < i then votes[k] else votes[k + 1];
      } else {
        assert forall k :: 0 <= k < |r| ==> KeyOf(r[k]) == KeyOf(votes[k]);
      }
  }

  /** Two identical votes cast from the "none" state put the ledger back exactly as it was. */
  lemma DoubleToggleRestores(votes: seq<Vote>, key: VoteKey, vt: VoteType, id1: string, t1: int, id2: string, t2: int)
    requires LookupVote(votes, key).None?
    ensures ToggleVote(ToggleVote(votes, key, vt, id1, t1), key, vt, id2, t2) == votes
  {
    var once := ToggleVote(votes, key, vt, id1, t1);
    FirstIndexIs(once, HasKey(key), |votes|);
    assert once[..|votes|] + once[|votes| + 1..] == votes;
  }

  /** `vote(targetId, targetType, voteType)` by `user` on the store: the ledger is toggled
      under the user's key, nothing else changes, and the call always reports success. */
  function CastVote(data: ForumData, user: User, targetId: string, targetType: TargetType,
                    vt: VoteType, voteId: string, now: int): (r: (ForumData, bool))
    ensures r.1
    ensures r.0.questions == data.questions && r.0.answers == data.answers && r.0.users == data.users
    ensures r.0.votes == ToggleVote(data.votes, VoteKey(user.id, targetId, targetType), vt, voteId, now)
  {
    (data.(votes := ToggleVote(data.votes, VoteKey(user.id, targetId, targetType), vt, voteId, now)), true)
  }

  /** Whether stored vote `v` is `user`'s vote on the target, as `getUserVote`'s `find` tests it. */
  predicate IsUserVote(v: Vote, user: User, targetId: string, targetType: TargetType) {
    v.targetId == targetId && v.targetType == targetType && v.userId == user.id
  }

  /** `getUserVote(targetId, targetType)` for `user`: the type of the first matching vote. */
  function GetUserVote(data: ForumData, user: User, targetId: string, targetType: TargetType): (r: Option<VoteType>)
    ensures r.None? <==> forall i :: 0 <= i < |data.votes| ==> !IsUserVote(data.votes[i], user, targetId, targetType)
    ensures r.Some? ==>
      exists i :: && 0 <= i < |data.votes| && IsUserVote(data.votes[i], user, targetId, targetType)
                  && r.value == data.votes[i].voteType
                  && forall j :: 0 <= j < i ==> !IsUserVote(data.votes[j], user, targetId, targetType)
    ensures UniqueVoteKeys(data.votes) ==>
      forall i :: 0 <= i < |data.votes| && IsUserVote(data.votes[i], user, targetId, targetType) ==>
        r == Some(data.votes[i].voteType)
  {
    LookupVote(data.votes, VoteKey(user.id, targetId, targetType))
  }

  /** `getUserVote` after `vote` agrees with the toggle table, for the voter's own key,
      and is unchanged for every other user or target. */
  lemma CastVoteThenGetUserVote(data: ForumData, user: User, targetId: string, targetType: TargetType,
                                vt: VoteType, voteId: string, now: int,
                                other: User, otherId: string, otherType: TargetType)
    requires UniqueVoteKeys(data.votes)
    ensures var after := CastVote(data, user, targetId, targetType, vt, voteId, now).0;
      && GetUserVote(after, user, targetId, targetType) == NextState(GetUserVote(data, user, targetId, targetType), vt)
      && UniqueVoteKeys(after.votes)
      && ((other.id, otherId, otherType) != (user.id, targetId, targetType) ==>
            GetUserVote(after, other, otherId, otherType) == GetUserVote(data, other, otherId, otherType))
  {
    var key := VoteKey(user.id, targetId, targetType);
    ToggleNextState(data.votes, key, vt, voteId, now);
    ToggleKeepsUnique(data.votes, key, vt, voteId, now);
    if (other.id, otherId, otherType) != (user.id, targetId, targetType) {
      ToggleFrame(data.votes, key, vt, voteId, now, VoteKey(other.id, otherId, otherType));
    }
  }
}
