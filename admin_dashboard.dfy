/** The package dashboard of the administration (src/components/admin/AdminDashboard.tsx):
    the split of the package list into active and archived packages, and the counts
    per status of the active ones. */
module AdminDashboard {
  import opened Domain

  /** `pkgList.filter(p => p.archived == archived)`, in list order; `!p.archived` is
      the active list. */
  function WithArchived(ps: seq<Package>, archived: bool): (r: seq<Package>)
    ensures |r| <= |ps|
    ensures forall i | 0 <= i < |r| :: r[i].archived == archived
  {
    if ps == [] then []
    else (if ps[0].archived == archived then [ps[0]] else []) + WithArchived(ps[1..], archived)
  }

  function Active(ps: seq<Package>): seq<Package> {
    WithArchived(ps, false)
  }

  function ArchivedList(ps: seq<Package>): seq<Package> {
    WithArchived(ps, true)
  }

  /** The two tabs add up to the whole list. */
  lemma {:induction false} PartitionSizes(ps: seq<Package>)
    ensures |Active(ps)| + |ArchivedList(ps)| == |ps|
  {
    if ps != [] {
      PartitionSizes(ps[1..]);
    }
  }

  /** Every package is on exactly one tab, the one its flag says. */
  lemma {:induction false} PartitionMembers(ps: seq<Package>, p: Package)
    ensures p in Active(ps) <==> p in ps && !p.archived
    ensures p in ArchivedList(ps) <==> p in ps && p.archived
  {
    if ps != [] {
      PartitionMembers(ps[1..], p);
      assert ps == [ps[0]] + ps[1..];
    }
  }

  /** Each tab keeps the list's order: the filter works piece by piece. */
  lemma {:induction false} WithArchivedAppend(a: seq<Package>, b: seq<Package>, archived: bool)
    ensures WithArchived(a + b, archived) == WithArchived(a, archived) + WithArchived(b, archived)
  {
    if a == [] {
      assert a + b == b;
    } else {
      assert (a + b)[1..] == a[1..] + b;
      WithArchivedAppend(a[1..], b, archived);
    }
  }

  /** The number of packages in `ps` with status `s`. */
  function CountStatus(ps: seq<Package>, s: PackageStatus): (n: nat)
    ensures n <= |ps|
  {
    if ps == [] then 0 else (if ps[0].status == s then 1 else 0) + CountStatus(ps[1..], s)
  }

  /** The dashboard's `stats`. */
  datatype Stats = Stats(total: nat, received: nat, inTransit: nat, arrived: nat, available: nat, pickedUp: nat)

  function StatsOf(ps: seq<Package>): (st: Stats)
    ensures st.total == |Active(ps)|
    ensures st.received == CountStatus(Active(ps), ReceivedChina)
    ensures st.inTransit == CountStatus(Active(ps), InTransit)
    ensures st.arrived == CountStatus(Active(ps), ArrivedAfrica)
    ensures st.available == CountStatus(Active(ps), AvailableWarehouse)
    ensures st.pickedUp == CountStatus(Active(ps), PickedUp)
  {
    var active := Active(ps);
    Stats(|active|, CountStatus(active, ReceivedChina), CountStatus(active, InTransit),
          CountStatus(active, ArrivedAfrica), CountStatus(active, AvailableWarehouse), CountStatus(active, PickedUp))
  }

  /** Every package has one of the five statuses, so the five counts add up to the
      total; archived packages count nowhere. */
  lemma {:induction false} CountsSumToLength(ps: seq<Package>)
    ensures CountStatus(ps, ReceivedChina) + CountStatus(ps, InTransit) + CountStatus(ps, ArrivedAfrica)
          + CountStatus(ps, AvailableWarehouse) + CountStatus(ps, PickedUp) == |ps|
  {
    if ps != [] {
      CountsSumToLength(ps[1..]);
    }
  }

  lemma StatsAddUp(ps: seq<Package>)
    ensures var st := StatsOf(ps);
      st.received + st.inTransit + st.arrived + st.available + st.pickedUp == st.total
  {
    CountsSumToLength(Active(ps));
  }
}
