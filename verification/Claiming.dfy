// Claiming one drop and reconciling its minutes (internal/inventory/claim.go, reconcile.go).
module Claiming {
  import opened Common
  import opened Inventory

  datatype RewardStatus = EligibleForAll | AlreadyClaimed | OtherStatus

  // What comes back from the claim request.
  datatype ClaimReply =
    | Failed
    | NoReward
    | Reward(status: RewardStatus, connected: Option<bool>)

  datatype ClaimResult = Granted | Refused | NotLinked | ClaimError

  function Judge(reply: ClaimReply): ClaimResult {
    match reply
    case Failed => ClaimError
    case NoReward => Refused
    case Reward(status, connected) =>
      if status == OtherStatus then Refused
      else if status != AlreadyClaimed && connected == Some(false) then NotLinked
      else Granted
  }

  // The reply hands out the reward: it says so, or it was handed out before.
  predicate Grants(reply: ClaimReply) {
    reply.Reward? &&
    (reply.status == AlreadyClaimed || (reply.status == EligibleForAll && reply.connected != Some(false)))
  }

  // The account counts as not linked only where the reward was due and the reply says so.
  lemma JudgeExact(reply: ClaimReply)
    ensures Judge(reply) == Granted <==> Grants(reply)
    ensures Judge(reply) == NotLinked <==> reply == Reward(EligibleForAll, Some(false))
    ensures Judge(reply) == ClaimError <==> reply == Failed
    ensures Judge(reply) == Refused <==> reply == NoReward || (reply.Reward? && reply.status == OtherStatus)
  {
  }

  function ClaimIdFor(d: TimedDrop, userId: string, campaignId: string): string {
    if d.claimId == "" then userId + "#" + campaignId + "#" + d.id else d.claimId
  }

  function GrantedDrop(d: TimedDrop, claimId: string): TimedDrop {
    d.(isClaimed := true, claimId := claimId, current := d.required)
  }

  const DAY := 86400

  predicate CanClaim(d: TimedDrop, campaignEndsAt: int, now: int) {
    d.claimId != "" && !d.isClaimed && now < campaignEndsAt + DAY
  }

  // Server minutes forced into [0, required].
  function Clamp(minutes: int, required: int): int {
    var low := if minutes < 0 then 0 else minutes;
    if low > required then required else low
  }

  method ReconcileMinutes(drops: array<TimedDrop>, i: nat, serverMinutes: int) returns (changed: bool)
    requires i < drops.Length
    modifies drops
    ensures drops[..] == old(drops[..])[i := old(drops[i]).(current := Clamp(serverMinutes, old(drops[i]).required))]
    ensures changed <==> drops[i] != old(drops[i])
    ensures 0 <= serverMinutes <= old(drops[i]).required ==> drops[i].current == serverMinutes
    ensures serverMinutes < 0 <= old(drops[i]).required ==> drops[i].current == 0
    ensures serverMinutes > old(drops[i]).required ==> drops[i].current == old(drops[i]).required
    ensures old(drops[i]).required < 0 ==> drops[i].current == old(drops[i]).required
  {
    var clamped := serverMinutes;
    if clamped < 0 {
      clamped := 0;
    }
    if clamped > drops[i].required {
      clamped := drops[i].required;
    }
    if drops[i].current == clamped {
      return false;
    }
    drops[i] := drops[i].(current := clamped);
    return true;
  }
}
