/** The client's package page (src/components/client/PackageDetail.tsx): the status
    badge table and the lifecycle history the page lists. */
module PackageDetail {
  import opened Domain
  import opened NotificationFormatter

  // ---------------------------------------------------------------- badge

  /** The badge caption; `available_warehouse` is shortened to "Disponible". */
  function BadgeLabel(s: PackageStatus): (r: string)
    ensures r != ""
  {
    match s
    case ReceivedChina => "Reçu en Chine"
    case InTransit => "En transit"
    case ArrivedAfrica => "Arrivé en Afrique"
    case AvailableWarehouse => "Disponible"
    case PickedUp => "Récupéré"
  }

  /** The badge colour classes. */
  function BadgeColor(s: PackageStatus): (r: string)
    ensures r != ""
  {
    match s
    case ReceivedChina => "bg-gray-100 text-gray-800"
    case InTransit => "bg-yellow-100 text-yellow-800"
    case ArrivedAfrica => "bg-orange-100 text-orange-800"
    case AvailableWarehouse => "bg-green-100 text-green-800"
    case PickedUp => "bg-green-600 text-white"
  }

  /** The badge agrees with the notification label everywhere except at
      `available_warehouse`, and its captions tell the statuses apart. */
  lemma BadgeMatchesFormatterExceptWarehouse(s: PackageStatus, t: PackageStatus)
    ensures BadgeLabel(s) == StatusLabel(s) <==> s != AvailableWarehouse
    ensures BadgeLabel(s) == BadgeLabel(t) ==> s == t
  {
  }

  // ---------------------------------------------------------------- history

  /** One line of the history: when, which stage, its title and its description. */
  datatype HistoryEntry = HistoryEntry(date: string, status: PackageStatus, title: string, description: string)

  function HistoryTitle(s: PackageStatus): string {
    match s
    case ReceivedChina => "Colis reçu en Chine"
    case InTransit => "En transit vers l'Afrique"
    case ArrivedAfrica => "Arrivé en Afrique"
    case AvailableWarehouse => "Disponible à l'entrepôt"
    case PickedUp => "Colis récupéré"
  }

  function HistoryDescription(s: PackageStatus): string {
    match s
    case ReceivedChina => "Votre colis a été reçu par le transitaire"
    case InTransit => "Votre colis est en route vers l'Afrique"
    case ArrivedAfrica => "Votre colis est arrivé en Afrique"
    case AvailableWarehouse => "Votre colis est disponible à l'entrepôt pour récupération"
    case PickedUp => "Votre colis a été récupéré"
  }

  /** The entry shown for a stage reached on `date`. */
  function EntryFor(s: PackageStatus, date: string): HistoryEntry {
    HistoryEntry(date, s, HistoryTitle(s), HistoryDescription(s))
  }

  /** The history of a package: the lifecycle stages from `received_china` up to the
      current status, in order, ending at the current status; the first is dated when
      the package was received in China and every later one carries the package's last
      update time. */
  function HistoryOf(pkg: Package): (h: seq<HistoryEntry>)
    ensures |h| == Position(pkg.status) + 1
    ensures h[0] == EntryFor(ReceivedChina, pkg.receivedChinaAt)
    ensures forall i | 1 <= i < |h| :: h[i].date == pkg.updatedAt
    ensures forall i | 0 <= i < |h| :: h[i] == EntryFor(Lifecycle[i], h[i].date)
    ensures h[|h| - 1].status == pkg.status
  {
    seq(Position(pkg.status) + 1, i requires 0 <= i <= Position(pkg.status) =>
      if i == 0 then EntryFor(ReceivedChina, pkg.receivedChinaAt) else EntryFor(Lifecycle[i], pkg.updatedAt))
  }

  /** `getStatusHistory`: one `push` for the first stage, then one guarded `push` for
      each later stage the current status has reached. */
  method GetStatusHistory(pkg: Package) returns (history: seq<HistoryEntry>)
    ensures history == HistoryOf(pkg)
  {
    var s := pkg.status;
    history := [EntryFor(ReceivedChina, pkg.receivedChinaAt)];
    if s != ReceivedChina {
      history := history + [EntryFor(InTransit, pkg.updatedAt)];
    }
    if s in {ArrivedAfrica, AvailableWarehouse, PickedUp} {
      history := history + [EntryFor(ArrivedAfrica, pkg.updatedAt)];
    }
    if s in {AvailableWarehouse, PickedUp} {
      history := history + [EntryFor(AvailableWarehouse, pkg.updatedAt)];
    }
    if s == PickedUp {
      history := history + [EntryFor(PickedUp, pkg.updatedAt)];
    }
  }

  /** Moving a package forward only appends to its history: with the same dates, the
      history at an earlier status is a prefix of the history at a later one. */
  lemma HistoryGrowsWithStatus(pkg: Package, later: PackageStatus)
    requires Position(pkg.status) <= Position(later)
    ensures HistoryOf(pkg) == HistoryOf(pkg.(status := later))[..Position(pkg.status) + 1]
  {
  }
}
