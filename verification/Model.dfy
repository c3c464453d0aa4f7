/** Ranking definitions, contributions and the data they are counted from. */
module Model {
  import opened Common

  datatype Error =
    | Capacity
    | Overflow
    | InvalidKey
    | InsufficientScore
    | IncompatibleDefinition
    | NotFound
    | WindowCapacity

  datatype SourceRule = SourceRule(
    source: string,
    metric: string,
    weight: u64,
    enabled: bool,
    giftMultipliers: map<string, u64>)

  datatype Window =
    | Session
    | Rolling(durationMs: u64, maxEvents: nat)
    | Daily(utcOffsetMinutes: int)

  datatype GroupBy = User | Gift | EventType | OptionKey | Team | CustomKey

  datatype UserLimits = UserLimits(
    maxContributions: Option<u64>,
    cooldownMs: Option<u64>,
    maxUsers: nat)

  datatype Definition = Definition(
    schemaVersion: nat,
    id: string,
    creatorId: string,
    roomId: string,
    groupBy: GroupBy,
    window: Window,
    userLimits: Option<UserLimits>,
    sources: seq<SourceRule>,
    limit: nat,
    capacity: nat)

  datatype Contribution = Contribution(
    creatorId: string,
    roomId: string,
    source: string,
    user: Option<string>,
    gift: Option<string>,
    option: Option<string>,
    team: Option<string>,
    customKey: Option<string>,
    metrics: seq<(string, u64)>)

  const VOTE_SOURCE := "competition.vote"
  const GIFT_SOURCE := "tiktok.gift"

  /** Presentation fields of an entry; a map holds the fields that are set. */
  datatype Field = Label | UserId | UniqueId | Nickname | AvatarUrl | GiftId | IconUrl

  type Metadata = map<Field, string>

  function FieldLimit(field: Field): nat {
    if field == AvatarUrl || field == IconUrl then 2048 else 512
  }

  /** Keeps the fields that are neither empty nor too long. */
  function Bounded(metadata: Metadata): Metadata {
    map field | field in metadata && metadata[field] != "" && Bytes(metadata[field]) <= FieldLimit(field)
      :: metadata[field]
  }

  predicate IsBounded(metadata: Metadata) {
    forall field :: field in metadata ==>
      metadata[field] != "" && Bytes(metadata[field]) <= FieldLimit(field)
  }

  predicate ValidKey(key: string) {
    key != "" && Bytes(key) <= 512
  }

  /** Whether some rule, enabled or not, names a source. */
  predicate Ruled(rules: seq<SourceRule>, source: string) {
    exists rule :: rule in rules && rule.source == source
  }

  predicate HasSource(definition: Definition, source: string) {
    Ruled(definition.sources, source)
  }

  predicate IsCompetition(definition: Definition) {
    HasSource(definition, VOTE_SOURCE)
  }

  /** The key a packet is counted under, when the packet carries it. */
  function GroupingKey(groupBy: GroupBy, c: Contribution): Option<string> {
    match groupBy
    case User => c.user
    case Gift => c.gift
    case EventType => Some(c.source)
    case OptionKey => c.option
    case Team => c.team
    case CustomKey => c.customKey
  }
}
