/** Clean events, the rules that time them, and the identities that link them.
    Fields absent from an event are read as "unknown", as the readers of both pipelines do. */
module Events {
  import opened Seqs

  datatype Rules = Rules(attribution: nat, wait: nat, dedup: nat, retention: nat, window: nat, emit: nat)

  /** The time boundaries without which no rule set is loaded. */
  predicate ValidRules(r: Rules) {
    && r.attribution > 0 && r.wait > 0 && r.window > 0 && r.emit > 0 && r.dedup > 0
    && r.retention >= r.attribution + r.wait
  }

  datatype Kind = Impression | Click | Conversion

  datatype Event = Event(
    kind: Kind, eventId: string, time: nat,
    advertiser: string, app: string, user: string, campaign: string, region: string, appVersion: string,
    impressionId: string, clickId: string, conversionId: string,
    experiment: string, variant: string, currency: string, value: nat,
    receipt: string, receivedAt: nat)

  /** An identifier inside one advertiser and application. */
  datatype Link = Link(advertiser: string, app: string, id: string)

  datatype Business = Business(kind: Kind, link: Link)

  function ImpressionLink(e: Event): Link { Link(e.advertiser, e.app, e.impressionId) }

  function ClickLink(e: Event): Link { Link(e.advertiser, e.app, e.clickId) }

  function ConversionLink(e: Event): Link { Link(e.advertiser, e.app, e.conversionId) }

  function BusinessKey(e: Event): Business {
    Business(e.kind, match e.kind
                     case Impression => ImpressionLink(e)
                     case Click => ClickLink(e)
                     case Conversion => ConversionLink(e))
  }

  predicate SameIdentity(a: Event, b: Event) {
    a.advertiser == b.advertiser && a.app == b.app && a.user == b.user
  }

  /** Whether an event's deadline, its time plus `span`, has come at `t`. */
  function Overdue(span: nat, t: int): Event -> bool { (e: Event) => e.time + span <= t }

  function Early(span: nat, t: int): Event -> bool { (e: Event) => e.time + span > t }

  /** The watermark of an operator that has seen none. */
  const NO_WATERMARK: int := -0x8000_0000_0000_0000

  /** What the join operators report for an event that only a replay can repair. */
  datatype SignalCode =
    | LateReplayRequired
    | LateClickReplayRequired
    | ConversionTimedOut
    | LinkProblem(reason: LinkReason)

  datatype Signal = Signal(event: Event, code: SignalCode)

  datatype LinkReason =
    | LinkOK
    | ImpressionNotFound
    | ImpressionIdentityMismatch
    | ImpressionCampaignMismatch
    | ClickBeforeImpression
    | ImpressionWindowExceeded

  datatype MatchReason =
    | Matched
    | ClickNotFound
    | IdentityMismatch
    | CampaignMismatch
    | ClickAfterConversion
    | AttributionWindowExceeded
    | AwaitingClick

  /** A click on its way to the conversions, carrying the impression it was linked to. */
  datatype LinkedClick = LinkedClick(click: Event, reason: LinkReason, impression: Option<Event>)
}
