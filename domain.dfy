/** The rows the application reads from its database tables (src/lib/supabase.ts),
    reduced to the fields the modelled logic touches. Timestamps are kept as the
    opaque strings the database returns, except where the logic compares them. */
module Domain {

  /** A shipment's lifecycle stage; a closed set of five values. */
  datatype PackageStatus = ReceivedChina | InTransit | ArrivedAfrica | AvailableWarehouse | PickedUp

  /** The statuses in lifecycle order. */
  const Lifecycle: seq<PackageStatus> := [ReceivedChina, InTransit, ArrivedAfrica, AvailableWarehouse, PickedUp]

  /** Where a status sits in the lifecycle, 0 for `received_china` up to 4 for `picked_up`. */
  function Position(s: PackageStatus): (k: nat)
    ensures k < |Lifecycle| && Lifecycle[k] == s
  {
    match s
    case ReceivedChina => 0
    case InTransit => 1
    case ArrivedAfrica => 2
    case AvailableWarehouse => 3
    case PickedUp => 4
  }

  /** The identifier the database and the scripts use for a status. */
  function StatusKey(s: PackageStatus): string {
    match s
    case ReceivedChina => "received_china"
    case InTransit => "in_transit"
    case ArrivedAfrica => "arrived_africa"
    case AvailableWarehouse => "available_warehouse"
    case PickedUp => "picked_up"
  }

  /** Distinct statuses have distinct identifiers. */
  lemma StatusKeyInjective(s: PackageStatus, t: PackageStatus)
    ensures StatusKey(s) == StatusKey(t) ==> s == t
  {
  }

  /** A `packages` row, with the `archived` flag the dashboard reads (absent reads as false). */
  datatype Package = Package(
    id: string,
    trackingNumber: string,
    clientId: string,
    status: PackageStatus,
    receivedChinaAt: string,
    updatedAt: string,
    archived: bool)

  /** A `messages` row. */
  datatype Message = Message(
    id: string,
    packageId: string,
    senderId: string,
    senderRole: string,
    content: string,
    isRead: bool,
    createdAt: string)
}
