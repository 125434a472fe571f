/**
 * Meeting proposals made by `/go` and the vote their buttons record
 * (bot.js:507-537 and bot.js:545-575): the proposal record, the status a
 * set of responses derives, the update one vote makes, and the button id
 * that carries the vote.
 */
module Proposals {
  import opened Outcomes
  import opened TimeUtil
  import opened Busy

  /** A party's answer; a party without an entry counts as `Pending` (`?? "PENDING"`). */
  datatype Response = Pending | Accept | Decline

  datatype Status = Open | Confirmed | Cancelled

  /** A stored proposal (channel and message ids and `createdAt` are not modelled). */
  datatype Proposal = Proposal(
    id: string,
    date: string,
    start: string,
    end: string,
    durationMin: int,
    creatorId: string,
    responses: map<UserKey, Response>,
    status: Status)

  function ResponseOf(responses: map<UserKey, Response>, k: UserKey): Response {
    if k in responses then responses[k] else Pending
  }

  /** Every roster party has accepted. */
  predicate AllAccepted(roster: seq<UserKey>, responses: map<UserKey, Response>) {
    forall i :: 0 <= i < |roster| ==> ResponseOf(responses, roster[i]) == Accept
  }

  /** Some roster party has declined. */
  predicate AnyDeclined(roster: seq<UserKey>, responses: map<UserKey, Response>) {
    exists i :: 0 <= i < |roster| && ResponseOf(responses, roster[i]) == Decline
  }

  /** The status the responses call for: confirmed when all accept, else cancelled when one declines. */
  function DerivedStatus(roster: seq<UserKey>, responses: map<UserKey, Response>): Status {
    if AllAccepted(roster, responses) then Confirmed
    else if AnyDeclined(roster, responses) then Cancelled
    else Open
  }

  /** A proposal's status is the one its responses call for. */
  predicate Consistent(roster: seq<UserKey>, p: Proposal) {
    p.status == DerivedStatus(roster, p.responses)
  }

  /** The button's action field: `ACCEPT` accepts, anything else (an absent field included) declines. */
  function ActionResponse(action: Option<string>): Response {
    if action == Some("ACCEPT") then Accept else Decline
  }

  /** Every roster party pending, as `/go` creates the responses. */
  function AllPending(roster: seq<UserKey>): map<UserKey, Response> {
    map k | k in roster :: Pending
  }

  /** The proposal `/go` stores for its first candidate. */
  function NewProposal(roster: seq<UserKey>, id: string, date: string, start: string, end: string,
                       durationMin: int, creatorId: string): Proposal {
    Proposal(id, date, start, end, durationMin, creatorId, AllPending(roster), Open)
  }

  /** A new proposal is open and consistent: nobody has answered yet. */
  lemma NewProposalConsistent(roster: seq<UserKey>, id: string, date: string, start: string, end: string,
                              durationMin: int, creatorId: string)
    requires |roster| > 0
    ensures Consistent(roster, NewProposal(roster, id, date, start, end, durationMin, creatorId))
    ensures NewProposal(roster, id, date, start, end, durationMin, creatorId).status == Open
  {
    var m := AllPending(roster);
    assert roster[0] in m;
    assert ResponseOf(m, roster[0]) == Pending;
    assert !AnyDeclined(roster, m);
  }

  /**
   * The update inside the button handler once the proposal is found: a
   * closed proposal is returned as it is; on an open one the caller's
   * response is set and the status derived again.
   */
  function CastVote(p: Proposal, roster: seq<UserKey>, caller: UserKey, vote: Response): Proposal {
    if p.status != Open then p
    else
      var responses := p.responses[caller := vote];
      p.(responses := responses, status := DerivedStatus(roster, responses))
  }

  /** A closed proposal is left exactly as it is. */
  lemma VoteOnClosedIsNoOp(p: Proposal, roster: seq<UserKey>, caller: UserKey, vote: Response)
    requires p.status != Open
    ensures CastVote(p, roster, caller, vote) == p
  {
  }

  /** A vote on an open proposal changes the caller's response only, and no other field. */
  lemma VoteSetsOnlyCaller(p: Proposal, roster: seq<UserKey>, caller: UserKey, vote: Response)
    requires p.status == Open
    ensures var r := CastVote(p, roster, caller, vote);
            && ResponseOf(r.responses, caller) == vote
            && (forall k :: k != caller ==> ResponseOf(r.responses, k) == ResponseOf(p.responses, k))
            && r.id == p.id && r.date == p.date && r.start == p.start && r.end == p.end
            && r.durationMin == p.durationMin && r.creatorId == p.creatorId
  {
  }

  /** After a vote the status is confirmed exactly when every roster party has accepted. */
  lemma ConfirmedIffAllAccept(p: Proposal, roster: seq<UserKey>, caller: UserKey, vote: Response)
    requires p.status == Open
    ensures var r := CastVote(p, roster, caller, vote);
            r.status == Confirmed <==> forall k :: k in roster ==> ResponseOf(r.responses, k) == Accept
  {
    var r := CastVote(p, roster, caller, vote);
    if forall k :: k in roster ==> ResponseOf(r.responses, k) == Accept {
      assert AllAccepted(roster, r.responses);
    }
  }

  /** After a vote the status is cancelled exactly when someone declined and not everyone accepted. */
  lemma CancelledIffSomeDecline(p: Proposal, roster: seq<UserKey>, caller: UserKey, vote: Response)
    requires p.status == Open
    ensures var r := CastVote(p, roster, caller, vote);
            r.status == Cancelled <==> exists k :: k in roster && ResponseOf(r.responses, k) == Decline
  {
    var r := CastVote(p, roster, caller, vote);
    if exists k :: k in roster && ResponseOf(r.responses, k) == Decline {
      var k :| k in roster && ResponseOf(r.responses, k) == Decline;
      var i :| 0 <= i < |roster| && roster[i] == k;
      assert !AllAccepted(roster, r.responses);
    }
  }

  /** A decline from a roster party closes an open proposal as cancelled. */
  lemma DeclineCancels(p: Proposal, roster: seq<UserKey>, caller: UserKey)
    requires p.status == Open && caller in roster
    ensures CastVote(p, roster, caller, Decline).status == Cancelled
  {
    var r := CastVote(p, roster, caller, Decline);
    var i :| 0 <= i < |roster| && roster[i] == caller;
    assert ResponseOf(r.responses, roster[i]) == Decline;
  }

  /** A vote keeps a proposal's status consistent with its responses. */
  lemma VotePreservesConsistency(p: Proposal, roster: seq<UserKey>, caller: UserKey, vote: Response)
    requires Consistent(roster, p)
    ensures Consistent(roster, CastVote(p, roster, caller, vote))
  {
  }

  /** Votes in the order the handler serialises them. */
  function ApplyVotes(p: Proposal, roster: seq<UserKey>, votes: seq<(UserKey, Response)>): Proposal
    decreases votes
  {
    if votes == [] then p
    else ApplyVotes(CastVote(p, roster, votes[0].0, votes[0].1), roster, votes[1..])
  }

  /** Once confirmed or cancelled, no sequence of votes changes a proposal. */
  lemma {:induction false} TerminalIsFinal(p: Proposal, roster: seq<UserKey>, votes: seq<(UserKey, Response)>)
    requires p.status != Open
    ensures ApplyVotes(p, roster, votes) == p
    decreases votes
  {
    if votes != [] {
      VoteOnClosedIsNoOp(p, roster, votes[0].0, votes[0].1);
      TerminalIsFinal(p, roster, votes[1..]);
    }
  }

  /** Any sequence of votes keeps a proposal consistent, and its status never returns to open. */
  lemma {:induction false} VotesPreserveConsistency(p: Proposal, roster: seq<UserKey>,
                                                    votes: seq<(UserKey, Response)>)
    requires Consistent(roster, p)
    ensures Consistent(roster, ApplyVotes(p, roster, votes))
    ensures p.status != Open ==> ApplyVotes(p, roster, votes).status == p.status
    decreases votes
  {
    if votes != [] {
      VotePreservesConsistency(p, roster, votes[0].0, votes[0].1);
      VotesPreserveConsistency(CastVote(p, roster, votes[0].0, votes[0].1), roster, votes[1..]);
      if p.status != Open {
        TerminalIsFinal(p, roster, votes);
      }
    }
  }

  // ----- the button id -----

  /** `s.split(":")`. */
  function SplitColon(s: string): (r: seq<string>)
    ensures |r| >= 1
    decreases |s|
  {
    var i := ColonIndex(s);
    if i == |s| then [s] else [s[..i]] + SplitColon(s[i + 1..])
  }

  /** A button press: the proposal id and the action fields, either absent when the id has too few fields. */
  datatype ButtonPress = ButtonPress(proposalId: Option<string>, action: Option<string>)

  /** The custom id `buildGoButtons` gives a button. */
  function ButtonId(proposalId: string, accept: bool): string {
    "go:" + proposalId + ":" + (if accept then "ACCEPT" else "DECLINE")
  }

  /** `const [prefix, proposalId, action] = customId.split(":")`; a prefix other than `go` is ignored. */
  function ParseButton(customId: string): Option<ButtonPress> {
    var f := SplitColon(customId);
    if f[0] != "go" then None
    else Some(ButtonPress(if |f| > 1 then Some(f[1]) else None, if |f| > 2 then Some(f[2]) else None))
  }

  /** A colon-free prefix is the first field. */
  lemma SplitFirst(a: string, b: string)
    requires NoColon(a)
    ensures SplitColon(a + [':'] + b) == [a] + SplitColon(b)
  {
    var s := a + [':'] + b;
    ColonAfter(a, b);
    assert s[..|a|] == a && s[|a| + 1..] == b;
  }

  lemma SplitFields(a: string, b: string, c: string)
    requires NoColon(a) && NoColon(b) && NoColon(c)
    ensures SplitColon(a + [':'] + b + [':'] + c) == [a, b, c]
  {
    assert SplitColon(c) == [c] by {
      assert ColonIndex(c) == |c|;
    }
    SplitFirst(b, c);
    assert a + [':'] + b + [':'] + c == a + [':'] + (b + [':'] + c);
    SplitFirst(a, b + [':'] + c);
  }

  /** The handler reads back the proposal id and the action of every button `/go` builds. */
  lemma ParseButtonId(proposalId: string, accept: bool)
    requires NoColon(proposalId)
    ensures ParseButton(ButtonId(proposalId, accept))
            == Some(ButtonPress(Some(proposalId), Some(if accept then "ACCEPT" else "DECLINE")))
    ensures ActionResponse(ParseButton(ButtonId(proposalId, accept)).value.action)
            == (if accept then Accept else Decline)
  {
    var action: string := if accept then "ACCEPT" else "DECLINE";
    assert ButtonId(proposalId, accept) == "go" + [':'] + proposalId + [':'] + action;
    SplitFields("go", proposalId, action);
  }
}
