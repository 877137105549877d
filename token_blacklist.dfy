/**
 * The single-use register for magic-link nonces (lib/token-blacklist.ts).
 *
 * An entry stays in force until (and including) its expiry instant; a query
 * that finds an expired entry deletes it. `now` stands for `Date.now()`.
 */
module TokenBlacklisting {
  import opened Wrappers

  /** `add` keeps a token this many minutes unless told otherwise. */
  const DefaultExpiryMinutes: nat := 30
  const MsPerMinute: nat := 60 * 1000

  datatype Entry = Entry(usedAt: nat, expiresAt: nat)

  type Blacklist = map<string, Entry>

  datatype QueryOutcome = QueryOutcome(blacklisted: bool, blacklist: Blacklist)

  /** `isBlacklisted`: true exactly for an entry that has not expired; an expired one is removed. */
  function QueryStep(bl: Blacklist, tokenId: string, now: nat): (q: QueryOutcome)
    ensures q.blacklisted <==> tokenId in bl && now <= bl[tokenId].expiresAt
    ensures q.blacklisted || tokenId !in q.blacklist
    ensures q.blacklist.Keys <= bl.Keys
    ensures forall k | k in q.blacklist :: q.blacklist[k] == bl[k]
    ensures forall k | k in bl && k != tokenId :: k in q.blacklist
  {
    if tokenId !in bl then QueryOutcome(false, bl)
    else if now > bl[tokenId].expiresAt then QueryOutcome(false, bl - {tokenId})
    else QueryOutcome(true, bl)
  }

  /** `add`, with the optional minutes argument. */
  function AddStep(bl: Blacklist, tokenId: string, expiryMinutes: Option<nat>, now: nat): (r: Blacklist)
    ensures r.Keys == bl.Keys + {tokenId}
    ensures r[tokenId].usedAt == now
    ensures expiryMinutes.None? ==> r[tokenId].expiresAt == now + 30 * 60000
    ensures expiryMinutes.Some? ==> r[tokenId].expiresAt == now + expiryMinutes.value * 60000
    ensures forall k | k in bl && k != tokenId :: r[k] == bl[k]
  {
    bl[tokenId := Entry(now, now + expiryMinutes.GetOr(DefaultExpiryMinutes) * MsPerMinute)]
  }

  /** `cleanup` */
  function Unexpired(bl: Blacklist, now: nat): (r: Blacklist)
    ensures forall k :: k in r <==> k in bl && now <= bl[k].expiresAt
    ensures forall k | k in r :: r[k] == bl[k]
  {
    map k | k in bl && now <= bl[k].expiresAt :: bl[k]
  }

  class TokenBlacklist {
    var blacklist: Blacklist

    constructor ()
      ensures blacklist == map[]
    {
      blacklist := map[];
    }

    method IsBlacklisted(tokenId: string, now: nat) returns (blacklisted: bool)
      modifies this
      ensures QueryOutcome(blacklisted, blacklist) == QueryStep(old(blacklist), tokenId, now)
    {
      if tokenId !in blacklist {
        return false;
      }
      if now > blacklist[tokenId].expiresAt {
        blacklist := blacklist - {tokenId};
        return false;
      }
      blacklisted := true;
    }

    method Add(tokenId: string, expiryMinutes: Option<nat>, now: nat)
      modifies this
      ensures blacklist == AddStep(old(blacklist), tokenId, expiryMinutes, now)
    {
      var minutes := if expiryMinutes.Some? then expiryMinutes.value else DefaultExpiryMinutes;
      blacklist := blacklist[tokenId := Entry(now, now + minutes * 60 * 1000)];
    }

    method Cleanup(now: nat)
      modifies this
      ensures blacklist == Unexpired(old(blacklist), now)
    {
      var pending := blacklist.Keys;
      while pending != {}
        invariant pending <= old(blacklist).Keys
        invariant forall k :: k in blacklist <==> k in old(blacklist) && (k in pending || now <= old(blacklist)[k].expiresAt)
        invariant forall k | k in blacklist :: blacklist[k] == old(blacklist)[k]
        decreases pending
      {
        var id :| id in pending;
        if now > blacklist[id].expiresAt {
          blacklist := blacklist - {id};
        }
        pending := pending - {id};
      }
    }
  }

  /** A token never added is never reported as used. */
  lemma UnknownTokenNotBlacklisted(bl: Blacklist, tokenId: string, now: nat)
    requires tokenId !in bl
    ensures QueryStep(bl, tokenId, now) == QueryOutcome(false, bl)
  {
  }

  /** Right after `add`, the token is reported as used until its expiry, and not after. */
  lemma AddedTokenBlacklisted(bl: Blacklist, tokenId: string, expiryMinutes: Option<nat>, added: nat, now: nat)
    ensures var after := AddStep(bl, tokenId, expiryMinutes, added);
      var limit := added + expiryMinutes.GetOr(DefaultExpiryMinutes) * MsPerMinute;
      QueryStep(after, tokenId, now).blacklisted <==> now <= limit
  {
  }

  /** The operations performed on the register. */
  datatype Op =
    | QueryOp(tokenId: string, now: nat)
    | AddOp(tokenId: string, expiryMinutes: Option<nat>, now: nat)
    | CleanupOp(now: nat)

  function Apply(bl: Blacklist, op: Op): Blacklist {
    match op
    case QueryOp(id, t) => QueryStep(bl, id, t).blacklist
    case AddOp(id, m, t) => AddStep(bl, id, m, t)
    case CleanupOp(t) => Unexpired(bl, t)
  }

  function Run(bl: Blacklist, ops: seq<Op>): Blacklist
    decreases |ops|
  {
    if ops == [] then bl else Run(Apply(bl, ops[0]), ops[1..])
  }

  /** A used token stays registered, entry unchanged, through any queries, cleanups and other
      additions made no later than its expiry. */
  lemma {:induction false} EntrySurvives(bl: Blacklist, tokenId: string, ops: seq<Op>)
    requires tokenId in bl
    requires forall i :: 0 <= i < |ops| ==> ops[i].now <= bl[tokenId].expiresAt
    requires forall i :: 0 <= i < |ops| && ops[i].AddOp? ==> ops[i].tokenId != tokenId
    ensures tokenId in Run(bl, ops) && Run(bl, ops)[tokenId] == bl[tokenId]
    decreases |ops|
  {
    if ops != [] {
      var next := Apply(bl, ops[0]);
      assert tokenId in next && next[tokenId] == bl[tokenId];
      forall i | 0 <= i < |ops[1..]|
        ensures ops[1..][i].now <= next[tokenId].expiresAt
        ensures ops[1..][i].AddOp? ==> ops[1..][i].tokenId != tokenId
      {
        assert ops[1..][i] == ops[i + 1];
      }
      EntrySurvives(next, tokenId, ops[1..]);
    }
  }

  /** Hence a magic link, once used, is refused again for as long as its entry lasts. */
  lemma UsedTokenRefusedLater(bl: Blacklist, tokenId: string, expiryMinutes: Option<nat>, added: nat, ops: seq<Op>, now: nat)
    requires var limit := added + expiryMinutes.GetOr(DefaultExpiryMinutes) * MsPerMinute;
      now <= limit && forall i :: 0 <= i < |ops| ==> ops[i].now <= limit
    requires forall i :: 0 <= i < |ops| && ops[i].AddOp? ==> ops[i].tokenId != tokenId
    ensures QueryStep(Run(AddStep(bl, tokenId, expiryMinutes, added), ops), tokenId, now).blacklisted
  {
    EntrySurvives(AddStep(bl, tokenId, expiryMinutes, added), tokenId, ops);
  }
}
