/**
 * The enumerations and row shapes of the application's tables
 * (src/lib/supabase/types.ts). Timestamps are integer milliseconds.
 */
module Schema {
  import opened Wrappers

  type Id = string

  /** A point in time, in milliseconds since the epoch. */
  type Millis = int

  const MINUTE_MS: int := 60 * 1000
  const HOUR_MS: int := 60 * MINUTE_MS

  datatype FuelType = Essence | Gasoil
  datatype Availability = Available | Limited | Out
  datatype QueueCategory = Q0To10 | Q10To30 | Q30To60 | Q60Plus
  datatype SourceType = Official | Trusted | Public
  datatype AlertType = NoUpdate | HighWait | Contradiction
  datatype AlertStatus = Open | Resolved
  datatype UserRole = PublicRole | StationManager | TrustedReporter | Admin

  /** The text a role is stored as in `user_profile.role`. */
  function RoleName(role: UserRole): string {
    match role
    case PublicRole => "PUBLIC"
    case StationManager => "STATION_MANAGER"
    case TrustedReporter => "TRUSTED_REPORTER"
    case Admin => "ADMIN"
  }

  /** The role a stored text names, if any. */
  function RoleOf(name: string): (r: Option<UserRole>)
    ensures r.Some? ==> RoleName(r.value) == name
  {
    if name == "PUBLIC" then Some(PublicRole)
    else if name == "STATION_MANAGER" then Some(StationManager)
    else if name == "TRUSTED_REPORTER" then Some(TrustedReporter)
    else if name == "ADMIN" then Some(Admin)
    else None
  }

  /** Every role is stored under a text of its own, and read back from it. */
  lemma RoleNameRoundTrip(role: UserRole)
    ensures RoleOf(RoleName(role)) == Some(role)
  {
  }

  /** The fuel types in the order every per-fuel loop visits them. */
  const FUEL_TYPES: seq<FuelType> := [Essence, Gasoil]

  datatype Station = Station(
    id: Id,
    name: string,
    brand: Option<string>,
    municipality: string,
    neighborhood: string,
    latitude: real,
    longitude: real,
    isActive: bool)

  /** `.eq('is_active', true)` */
  predicate IsActive(s: Station) { s.isActive }

  /** A row of `station_status`: the display state of one (station, fuel type) pair. */
  datatype StationStatus = StationStatus(
    stationId: Id,
    fuelType: FuelType,
    availability: Availability,
    pumpsActive: Option<int>,
    waitingTimeMin: Option<int>,
    waitingTimeMax: Option<int>,
    reliabilityScore: int,
    lastUpdateSource: SourceType,
    updatedAt: Millis)

  /** A row of `contribution`: one report, never changed once written. */
  datatype Contribution = Contribution(
    stationId: Id,
    userId: Option<Id>,
    sourceType: SourceType,
    queueCategory: Option<QueueCategory>,
    fuelStatus: Option<Availability>,
    createdAt: Millis)

  datatype Alert = Alert(
    stationId: Id,
    alertType: AlertType,
    status: AlertStatus,
    createdAt: Millis,
    resolvedAt: Option<Millis>)

  /** A row of `user_profile`; `role` is stored as the text that was inserted. */
  datatype UserProfile = UserProfile(
    authUserId: Id,
    emailOrPhone: string,
    role: string,
    stationId: Option<Id>,
    isVerified: bool,
    mustChangePassword: bool)
}
