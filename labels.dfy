/** The display mappings of src/lib/utils.ts. */
module Labels {
  import opened Wrappers
  import opened Schema

  /** `getAvailabilityIcon`: a coloured disc per availability, white when unknown. */
  function AvailabilityIcon(a: Option<Availability>): (icon: string)
    ensures icon == "\U{26AA}" <==> a.None?
  {
    match a
    case Some(Available) => "\U{1F7E2}"
    case Some(Limited) => "\U{1F7E1}"
    case Some(Out) => "\U{1F534}"
    case None => "\U{26AA}"
  }

  lemma AvailabilityIconInjective(a: Option<Availability>, b: Option<Availability>)
    ensures AvailabilityIcon(a) == AvailabilityIcon(b) ==> a == b
  {
  }

  /** `getAvailabilityLabel` */
  function AvailabilityLabel(a: Option<Availability>): (text: string)
    ensures text == "Inconnu" <==> a.None?
  {
    match a
    case Some(Available) => "Disponible"
    case Some(Limited) => "Limité"
    case Some(Out) => "Rupture"
    case None => "Inconnu"
  }

  lemma AvailabilityLabelInjective(a: Option<Availability>, b: Option<Availability>)
    ensures AvailabilityLabel(a) == AvailabilityLabel(b) ==> a == b
  {
  }

  /** `getQueueLabel`: the minute range a queue category stands for. */
  function QueueLabel(q: Option<QueueCategory>): (text: string)
    ensures text == "Inconnu" <==> q.None?
  {
    match q
    case Some(Q0To10) => "0-10 min"
    case Some(Q10To30) => "10-30 min"
    case Some(Q30To60) => "30-60 min"
    case Some(Q60Plus) => "60+ min"
    case None => "Inconnu"
  }

  lemma QueueLabelInjective(a: Option<QueueCategory>, b: Option<QueueCategory>)
    ensures QueueLabel(a) == QueueLabel(b) ==> a == b
  {
  }

  datatype Reliability = Low | Medium | High {
    function Rank(): nat {
      match this
      case Low => 0
      case Medium => 1
      case High => 2
    }
  }

  /** `getReliabilityLabel` */
  function ReliabilityLabel(score: int): (r: Reliability)
    ensures r == High <==> score >= 50
    ensures r == Medium <==> 20 <= score < 50
    ensures r == Low <==> score < 20
  {
    if score >= 50 then High
    else if score >= 20 then Medium
    else Low
  }

  /** A higher score never gets a lower label. */
  lemma ReliabilityLabelMonotone(s1: int, s2: int)
    requires s1 <= s2
    ensures ReliabilityLabel(s1).Rank() <= ReliabilityLabel(s2).Rank()
  {
  }

  /** `getRoleLabel`: total over the four roles. */
  function RoleLabel(role: UserRole): (text: string)
    ensures text != ""
  {
    match role
    case PublicRole => "Public"
    case StationManager => "Gestionnaire"
    case TrustedReporter => "Rapporteur vérifié"
    case Admin => "Administrateur"
  }

  lemma RoleLabelInjective(a: UserRole, b: UserRole)
    ensures RoleLabel(a) == RoleLabel(b) ==> a == b
  {
  }
}
