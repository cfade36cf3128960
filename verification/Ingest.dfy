/** Translation of decoded on-chain events into principal-track events (src/ingest.ts). */
module Ingest {
  import opened Events
  import opened Bytes
  import Binding

  /** The decoded payloads that `toArsEvent` tells apart; every other name falls through to `default`. */
  datatype Payload =
    | ActionRecorded(actionHash: seq<byte>, actionOutcome: int)
    | ClaimSubmitted(claimKey: string)
    | ClaimResolved(status: int)
    | ArbiterRuled(ruling: int)
    | CreditDrawn(amount: int)
    | Unmapped(name: string)

  datatype Context = Context(at: int, jobId: Option<string>)

  function ClaimStatusResolution(status: int): Resolution {
    if status == 3 || status == 7 then DisputeRejected else DisputeUpheld
  }

  /** `!ctx.jobId`: an absent id and an empty one are both missing. */
  predicate LacksJobId(ctx: Context) {
    ctx.jobId.None? || ctx.jobId.value == ""
  }

  function ToArsEvent(payload: Payload, ctx: Context): Option<ArsEvent> {
    match payload
    case ActionRecorded(actionHash, outcome) =>
      var jobId := Hex(actionHash);
      Some(EvidenceSubmitted(jobId, ctx.at, jobId, if outcome == 0 then Succeeded else Failed))
    case ClaimSubmitted(claim) =>
      if LacksJobId(ctx) then None
      else Some(Disputed(ctx.jobId.value, ctx.at, claim))
    case ClaimResolved(status) =>
      if LacksJobId(ctx) then None
      else Some(Closed(ctx.jobId.value, ctx.at, ClaimStatusResolution(status)))
    case ArbiterRuled(ruling) =>
      if LacksJobId(ctx) then None
      else Some(Closed(ctx.jobId.value, ctx.at, if ruling == 1 then DisputeRejected else DisputeUpheld))
    case CreditDrawn(amount) =>
      if LacksJobId(ctx) then None
      else Some(PrincipalReleased(ctx.jobId.value, ctx.at, amount))
    case Unmapped(_) => None
  }

  /**
   * What a chain puts into its payloads: which hashes, which texts of claim keys, which amounts. Statements
   * below hold for every such choice, all values included.
   */
  datatype Chain = Chain(hash: seq<byte> -> bool, claim: string -> bool, amount: int -> bool)

  /** Hashes of 32 bytes and amounts of 64 bits, as the telaro program emits them. */
  function Solana(claim: string -> bool): Chain {
    Chain(hash => |hash| == 32, claim, amount => 0 <= amount <= Binding.U64_MAX)
  }

  predicate Emits(chain: Chain, payload: Payload) {
    match payload
    case ActionRecorded(actionHash, _) => chain.hash(actionHash)
    case ClaimSubmitted(claim) => chain.claim(claim)
    case CreditDrawn(amount) => chain.amount(amount)
    case _ => true
  }

  /** The id spells a hash of the chain. */
  predicate SpellsHash(chain: Chain, id: string) {
    IsHex(id) && chain.hash(Unhex(id))
  }

  /** The events that can come from the chain. */
  predicate FromChain(chain: Chain, e: ArsEvent) {
    match e
    case EvidenceSubmitted(jobId, _, actionHash, _) => SpellsHash(chain, jobId) && actionHash == jobId
    case Disputed(jobId, _, claim) => jobId != "" && chain.claim(claim)
    case Closed(jobId, _, resolution) => jobId != "" && resolution != NoDispute
    case PrincipalReleased(jobId, _, amount) => jobId != "" && chain.amount(amount)
    case JobOpened(_, _, _, _, _) => false
    case UnderwritingStarted(_, _) => false
    case UnderwritingDecided(_, _, _, _) => false
  }

  /** A payload and context that translate into a given event. */
  function Origin(chain: Chain, e: ArsEvent): (Payload, Context)
    requires FromChain(chain, e)
  {
    var ctx := Context(e.at, Some(e.jobId));
    match e
    case EvidenceSubmitted(jobId, _, _, outcome) =>
      (ActionRecorded(Unhex(jobId), if outcome == Succeeded then 0 else 1), ctx)
    case Disputed(_, _, claim) => (ClaimSubmitted(claim), ctx)
    case Closed(_, _, resolution) => (ClaimResolved(if resolution == DisputeRejected then 3 else 1), ctx)
    case PrincipalReleased(_, _, amount) => (CreditDrawn(amount), ctx)
  }

  lemma OriginTranslates(chain: Chain, e: ArsEvent)
    requires FromChain(chain, e)
    ensures var origin := Origin(chain, e);
            Emits(chain, origin.0) && ToArsEvent(origin.0, origin.1) == Some(e)
  {
    if e.EvidenceSubmitted? {
      HexOfUnhex(e.jobId);
    }
  }

  lemma TranslationIsFromChain(chain: Chain, payload: Payload, ctx: Context)
    requires Emits(chain, payload) && ToArsEvent(payload, ctx).Some?
    ensures FromChain(chain, ToArsEvent(payload, ctx).value)
  {
    if payload.ActionRecorded? {
      UnhexOfHex(payload.actionHash);
    }
  }

  ghost predicate Translatable(chain: Chain, e: ArsEvent) {
    exists payload, ctx :: Emits(chain, payload) && ToArsEvent(payload, ctx) == Some(e)
  }

  /** The image of the translation, exactly, for whatever the chain emits. */
  lemma ImageOfTranslation(chain: Chain, e: ArsEvent)
    ensures Translatable(chain, e) <==> FromChain(chain, e)
  {
    if Translatable(chain, e) {
      var payload, ctx :| Emits(chain, payload) && ToArsEvent(payload, ctx) == Some(e);
      TranslationIsFromChain(chain, payload, ctx);
    }
    if FromChain(chain, e) {
      OriginTranslates(chain, e);
    }
  }

  /**
   * Which payloads translate and which job they speak about: a recorded action always and about the job
   * its hash names, whatever the context says; the four others only with a job id, and about that job.
   */
  lemma TranslationRoutes(payload: Payload, ctx: Context)
    ensures ToArsEvent(payload, ctx).None? <==>
      payload.Unmapped? || (!payload.ActionRecorded? && (ctx.jobId == None || ctx.jobId == Some("")))
    ensures var r := ToArsEvent(payload, ctx);
      r.Some? ==>
        && r.value.at == ctx.at
        && (if r.value.EvidenceSubmitted? then
              payload.ActionRecorded? && HashOf(r.value.jobId) == Some(payload.actionHash)
            else Some(r.value.jobId) == ctx.jobId)
        && (r.value.EvidenceSubmitted? ==> (r.value.outcome == Succeeded <==> payload.actionOutcome == 0))
        && (r.value.PrincipalReleased? ==> payload == CreditDrawn(r.value.amountAtomic))
        && (r.value.Disputed? ==> payload == ClaimSubmitted(r.value.claim))
  {
    if payload.ActionRecorded? {
      UnhexOfHex(payload.actionHash);
    }
  }

  /** The action hash that a job id spells, if it spells one. */
  function HashOf(text: string): Option<seq<byte>> {
    if IsHex(text) then Some(Unhex(text)) else None
  }

  /** Recorded actions of different hashes never concern the same job, whatever the contexts say. */
  lemma ActionsKeepApart(a: seq<byte>, b: seq<byte>, outcomeA: int, outcomeB: int, ctxA: Context, ctxB: Context)
    ensures var x, y := ToArsEvent(ActionRecorded(a, outcomeA), ctxA), ToArsEvent(ActionRecorded(b, outcomeB), ctxB);
            x.Some? && y.Some? && (x.value.jobId == y.value.jobId <==> a == b)
  {
    if Hex(a) == Hex(b) {
      HexIsInjective(a, b);
    }
  }
}
