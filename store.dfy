/**
 * The bot's persistent store (its `busy` and `proposals` lists)
 * and the handlers that change it: `/busy add`, `/busy remove`,
 * `/busy clear`, `/go` and a press on a proposal's button (bot.js:296-575).
 * Each handler is one method; `withStore`'s load-change-save is the
 * method's update of `this`. As in `Availability`, `/go` reads and writes
 * times through a `clock` parameter, which bot.js fixes to `BotClock`. The
 * roster `USER_KEYS` is fixed when the store is made, and the ids `crypto.randomUUID()` draws are parameters
 * that no stored record or proposal carries yet.
 */
module Store {
  import opened Outcomes
  import opened Seqs
  import opened JsBuiltins
  import opened TimeUtil
  import opened Busy
  import opened Availability
  import opened Proposals

  /** Why a `/busy` subcommand refuses. */
  datatype BusyError = NotMember | InvalidRange | NotFound | NotOwner

  /** Why a button press changes nothing. */
  datatype PressError = NotOurs | NotRegistered | NoSuchProposal

  /** The index of the first proposal with that id (`proposals.find`). */
  function FindProposal(proposals: seq<Proposal>, id: Option<string>): (r: Option<nat>)
    ensures r.None? <==> id.None? || forall p :: p in proposals ==> p.id != id.value
    ensures r.Some? ==> r.value < |proposals| && proposals[r.value].id == id.value
  {
    if id.None? || proposals == [] then None
    else if proposals[0].id == id.value then Some(0)
    else
      var r := FindProposal(proposals[1..], id);
      if r.None? then None else Some(r.value + 1)
  }

  predicate UniqueProposalIds(proposals: seq<Proposal>) {
    forall i, j :: 0 <= i < j < |proposals| ==> proposals[i].id != proposals[j].id
  }

  /**
   * A proposal as the handlers keep it: a response slot per roster party
   * and the status those responses call for.
   */
  predicate WellFormedProposal(roster: seq<UserKey>, p: Proposal) {
    p.responses.Keys == (set k | k in roster) && Consistent(roster, p)
  }

  class Store {
    const roster: seq<UserKey>
    var busy: seq<BusyRecord>
    var proposals: seq<Proposal>

    /**
     * What the handlers keep true: ids are unique, every busy record
     * belongs to a roster party and starts before it ends, and every
     * proposal is well formed.
     */
    ghost predicate Valid()
      reads this
    {
      && |roster| > 0 && Distinct(roster)
      && UniqueIds(busy)
      && (forall b :: b in busy ==> b.userKey in roster && HasValidRange(b))
      && UniqueProposalIds(proposals)
      && (forall p :: p in proposals ==> WellFormedProposal(roster, p))
    }

    /** A store with no busy records and no proposals. */
    constructor (roster: seq<UserKey>)
      requires |roster| > 0 && Distinct(roster)
      ensures Valid()
      ensures this.roster == roster && busy == [] && proposals == []
    {
      this.roster := roster;
      busy := [];
      proposals := [];
    }

    /**
     * `/busy add`: a caller outside the roster and a range that does not
     * start before it ends are refused; otherwise the record is appended.
     */
    method Add(caller: Option<UserKey>, date: string, start: string, end: string, reason: Option<string>,
               id: string)
      returns (r: Result<BusyRecord, BusyError>)
      requires Valid()
      requires caller.Some? ==> caller.value in roster
      requires forall b :: b in busy ==> b.id != id
      modifies this
      ensures Valid()
      ensures caller.None? ==> r == Failure(NotMember)
      ensures caller.Some? && !Less(NormalizeTimeToMin(start), NormalizeTimeToMin(end))
              ==> r == Failure(InvalidRange)
      ensures caller.Some? && Less(NormalizeTimeToMin(start), NormalizeTimeToMin(end)) ==> r.Success?
      ensures r.Success? ==>
                && r.value == BusyRecord(id, caller.value, date, start, end,
                                         ReasonOf(if reason.Some? then reason.value else ""))
                && busy == old(busy) + [r.value]
      ensures r.Failure? ==> busy == old(busy)
      ensures proposals == old(proposals)
    {
      if caller.None? {
        return Failure(NotMember);
      }
      if !Less(NormalizeTimeToMin(start), NormalizeTimeToMin(end)) {
        return Failure(InvalidRange);
      }
      var record := BusyRecord(id, caller.value, date, start, end,
                               ReasonOf(if reason.Some? then reason.value else ""));
      UniqueIdsSnoc(busy, record);
      busy := busy + [record];
      r := Success(record);
    }

    /**
     * `/busy remove`: refused for a caller outside the roster, an unknown
     * id, or a record of another party; otherwise the record is deleted.
     */
    method Remove(caller: Option<UserKey>, id: string) returns (r: Result<BusyRecord, BusyError>)
      requires Valid()
      modifies this
      ensures Valid()
      ensures caller.None? ==> r == Failure(NotMember)
      ensures caller.Some? && FindById(old(busy), id).None? ==> r == Failure(NotFound)
      ensures caller.Some? && FindById(old(busy), id).Some?
              && FindById(old(busy), id).value.userKey != caller.value
              ==> r == Failure(NotOwner)
      ensures caller.Some? && FindById(old(busy), id).Some?
              && FindById(old(busy), id).value.userKey == caller.value
              ==> r.Success?
      ensures r.Success? ==>
                && Some(r.value) == FindById(old(busy), id) && r.value.userKey == caller.value
                && busy == Without(old(busy), id)
                && multiset(busy) == multiset(old(busy)) - multiset{r.value}
      ensures r.Failure? ==> busy == old(busy)
      ensures proposals == old(proposals)
    {
      if caller.None? {
        return Failure(NotMember);
      }
      var item := FindById(busy, id);
      if item.None? {
        return Failure(NotFound);
      }
      if item.value.userKey != caller.value {
        return Failure(NotOwner);
      }
      RemoveDeletesOne(busy, id);
      FilterKeepsUniqueIds(busy, (b: BusyRecord) => b.id != id);
      busy := Without(busy, id);
      r := Success(item.value);
    }

    /** `/busy clear`: a roster caller's records all go, everyone else's stay in order. */
    method Clear(caller: Option<UserKey>) returns (r: Result<UserKey, BusyError>)
      requires Valid()
      modifies this
      ensures Valid()
      ensures r.Failure? <==> caller.None?
      ensures r.Failure? ==> r.error == NotMember && busy == old(busy)
      ensures r.Success? ==>
                && r.value == caller.value
                && busy == NotOwnedBy(old(busy), caller.value)
                && multiset(busy) + multiset(OwnedBy(old(busy), caller.value)) == multiset(old(busy))
      ensures proposals == old(proposals)
    {
      if caller.None? {
        return Failure(NotMember);
      }
      ClearPartition(busy, caller.value);
      FilterKeepsUniqueIds(busy, (b: BusyRecord) => b.userKey != caller.value);
      busy := NotOwnedBy(busy, caller.value);
      r := Success(caller.value);
    }

    /**
     * What `/go` does with a request `CheckGoRequest` accepted (which makes
     * the requires below hold for `BotClock`, by `CheckedQueryIsSearchable`):
     * search the stored busy records and store an open proposal, under the
     * fresh id `proposalId`, for the earliest free window.
     */
    method Go(clock: Clock, q: SlotQuery, proposalId: string, creatorId: string)
      returns (r: Option<Proposal>)
      requires Valid()
      requires clock.read(q.from).Finite? && clock.read(q.from).v >= 0 && clock.read(q.to).Finite?
      requires q.durationMin > 0 && q.stepMin > 0
      requires forall p :: p in proposals ==> p.id != proposalId
      modifies this
      ensures Valid()
      ensures busy == old(busy)
      ensures r.None? ==> proposals == old(proposals)
                          && NoWindow(clock, busy, roster, q.date, clock.read(q.from).v, clock.read(q.to).v,
                                         q.durationMin, q.stepMin)
      ensures r.Some? ==>
                && proposals == old(proposals) + [r.value]
                && exists t: nat ::
                     && Earliest(clock, busy, roster, q.date, clock.read(q.from).v, clock.read(q.to).v,
                                 q.durationMin, q.stepMin, t)
                     && r.value == NewProposal(roster, proposalId, q.date,
                                               SlotAt(clock, t, q.durationMin).start,
                                               SlotAt(clock, t, q.durationMin).end,
                                               q.durationMin, creatorId)
    {
      var candidates, starts := RecommendSlots(clock, busy, roster, q);
      ghost var fromM, toM := clock.read(q.from).v, clock.read(q.to).v;
      FirstIsEarliest(clock, busy, roster, q.date, fromM, toM, q.durationMin, q.stepMin,
                      Cap(q.maxCandidates), starts);
      if candidates == [] {
        return None;
      }
      var chosen := candidates[0];
      SlotsAtIndex(clock, starts, q.durationMin);
      var p := NewProposal(roster, proposalId, q.date, chosen.start, chosen.end, q.durationMin, creatorId);
      NewProposalConsistent(roster, proposalId, q.date, chosen.start, chosen.end, q.durationMin, creatorId);
      UniqueProposalIdsSnoc(proposals, p);
      proposals := proposals + [p];
      r := Some(p);
    }

    /**
     * A press on a proposal's button: ids without the `go` prefix are
     * ignored, a caller outside the roster is refused, an unknown proposal
     * is reported; otherwise the caller's vote is cast on the stored
     * proposal (a closed one is left as it is) and the result returned.
     */
    method Press(caller: Option<UserKey>, customId: string) returns (r: Result<Proposal, PressError>)
      requires Valid()
      requires caller.Some? ==> caller.value in roster
      modifies this
      ensures Valid()
      ensures busy == old(busy)
      ensures ParseButton(customId).None? ==> r == Failure(NotOurs)
      ensures ParseButton(customId).Some? && caller.None? ==> r == Failure(NotRegistered)
      ensures r.Failure? ==> proposals == old(proposals)
      ensures r == Failure(NoSuchProposal) <==>
                ParseButton(customId).Some? && caller.Some?
                && FindProposal(old(proposals), ParseButton(customId).value.proposalId).None?
      ensures ParseButton(customId).Some? && caller.Some?
              && FindProposal(old(proposals), ParseButton(customId).value.proposalId).Some?
              ==> r.Success?
      ensures r.Success? ==>
                var press := ParseButton(customId).value;
                var i := FindProposal(old(proposals), press.proposalId).value;
                var vote := ActionResponse(press.action);
                && caller.Some?
                && r.value == CastVote(old(proposals)[i], roster, caller.value, vote)
                && proposals == old(proposals)[i := r.value]
    {
      var press := ParseButton(customId);
      if press.None? {
        return Failure(NotOurs);
      }
      if caller.None? {
        return Failure(NotRegistered);
      }
      var vote := ActionResponse(press.value.action);
      var found := FindProposal(proposals, press.value.proposalId);
      if found.None? {
        return Failure(NoSuchProposal);
      }
      var i := found.value;
      var updated := CastVote(proposals[i], roster, caller.value, vote);
      VotePreservesConsistency(proposals[i], roster, caller.value, vote);
      assert updated.responses.Keys == proposals[i].responses.Keys;
      proposals := proposals[i := updated];
      r := Success(updated);
    }
  }

  lemma UniqueIdsSnoc(busy: seq<BusyRecord>, b: BusyRecord)
    requires UniqueIds(busy) && forall x :: x in busy ==> x.id != b.id
    ensures UniqueIds(busy + [b])
  {
    var s := busy + [b];
    forall i, j | 0 <= i < j < |s| ensures s[i].id != s[j].id {
      if j == |busy| {
        assert s[i] in busy;
      }
    }
  }

  lemma UniqueProposalIdsSnoc(proposals: seq<Proposal>, p: Proposal)
    requires UniqueProposalIds(proposals) && forall x :: x in proposals ==> x.id != p.id
    ensures UniqueProposalIds(proposals + [p])
  {
    var s := proposals + [p];
    forall i, j | 0 <= i < j < |s| ensures s[i].id != s[j].id {
      if j == |proposals| {
        assert s[i] in proposals;
      }
    }
  }
}
