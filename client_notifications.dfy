/** The client's notification page (src/components/notifications/ClientNotifications.tsx):
    the tab filter over the deliveries and the counts shown on the tabs and in the
    header. */
module ClientNotifications {
  import opened NotificationRows

  /** The three tabs: "Toutes", "Non lues", "Lues". */
  datatype Tab = All | UnreadTab | ReadTab

  /** Whether a delivery is shown under a tab. */
  predicate Shows(tab: Tab, u: UserNotification) {
    match tab
    case All => true
    case UnreadTab => u.status == Unread
    case ReadTab => u.status == Read
  }

  /** `filteredNotifications`: the deliveries the tab shows, in list order. */
  function Filtered(us: seq<UserNotification>, tab: Tab): (r: seq<UserNotification>)
    ensures |r| <= |us|
    ensures forall i | 0 <= i < |r| :: Shows(tab, r[i])
  {
    if us == [] then []
    else (if Shows(tab, us[0]) then [us[0]] else []) + Filtered(us[1..], tab)
  }

  /** A tab shows exactly the deliveries it selects; "all" shows the whole list. */
  lemma {:induction false} FilteredMembers(us: seq<UserNotification>, tab: Tab, u: UserNotification)
    ensures u in Filtered(us, tab) <==> u in us && Shows(tab, u)
  {
    if us != [] {
      FilteredMembers(us[1..], tab, u);
      assert us == [us[0]] + us[1..];
    }
  }

  lemma {:induction false} AllShowsEverything(us: seq<UserNotification>)
    ensures Filtered(us, All) == us
  {
    if us != [] {
      AllShowsEverything(us[1..]);
    }
  }

  /** Filtering keeps the relative order: it works piece by piece. */
  lemma {:induction false} FilteredAppend(a: seq<UserNotification>, b: seq<UserNotification>, tab: Tab)
    ensures Filtered(a + b, tab) == Filtered(a, tab) + Filtered(b, tab)
  {
    if a == [] {
      assert a + b == b;
    } else {
      assert (a + b)[1..] == a[1..] + b;
      FilteredAppend(a[1..], b, tab);
    }
  }

  /** The count on a tab. */
  function TabCount(us: seq<UserNotification>, tab: Tab): (n: nat)
    ensures n <= |us|
  {
    |Filtered(us, tab)|
  }

  /** The header's "non lues" count, the same filter written out again. */
  function HeaderUnread(us: seq<UserNotification>): (n: nat)
    ensures n == TabCount(us, UnreadTab)
  {
    if us == [] then 0 else (if us[0].status == Unread then 1 else 0) + HeaderUnread(us[1..])
  }

  /** The deleted deliveries are on no tab but "all": the unread and read counts and
      the deleted ones add up to the "all" count. */
  lemma {:induction false} TabCountsAddUp(us: seq<UserNotification>)
    ensures TabCount(us, UnreadTab) + TabCount(us, ReadTab) + DeletedCount(us) == TabCount(us, All)
    ensures TabCount(us, UnreadTab) + TabCount(us, ReadTab) <= TabCount(us, All)
  {
    AllShowsEverything(us);
    UnreadReadDeleted(us);
  }

  /** The number of deleted deliveries. */
  function DeletedCount(us: seq<UserNotification>): nat {
    if us == [] then 0 else (if us[0].status == Deleted then 1 else 0) + DeletedCount(us[1..])
  }

  lemma {:induction false} UnreadReadDeleted(us: seq<UserNotification>)
    ensures TabCount(us, UnreadTab) + TabCount(us, ReadTab) + DeletedCount(us) == |us|
  {
    if us != [] {
      UnreadReadDeleted(us[1..]);
    }
  }
}
