/** The rows of the notification store (src/store/notificationStore.ts) and the pure
    transforms it applies to them: the two fallback row mappings and the local list
    updates that follow a successful database call. */
module NotificationRows {
  import opened JsBuiltins

  /** A notification's publication state. */
  datatype PublicationStatus = Draft | Sent | Archived

  /** A `notifications` row; `type` is kept as the identifier the database stores, and
      `status` is absent on rows that do not carry one. */
  datatype Notification = Notification(
    id: string,
    title: string,
    content: string,
    kind: string,
    status: Option<PublicationStatus>,
    createdAt: string)

  /** A delivery's state for its user. */
  datatype Delivery = Unread | Read | Deleted

  /** A `user_notifications` row, with the notification it points to when joined. */
  datatype UserNotification = UserNotification(
    id: string,
    notificationId: string,
    userId: string,
    status: Delivery,
    readAt: Option<string>,
    createdAt: string,
    notification: Option<Notification>)

  /** A person shown in the recipient list. */
  datatype PublicUser = PublicUser(id: string, name: string, location: string, createdAt: string)

  // ---------------------------------------------------------------- legacy rows

  /** A row of the older single-table schema, read when `user_notifications` is missing. */
  datatype LegacyRow = LegacyRow(
    id: string,
    userId: string,
    isRead: bool,
    title: string,
    content: Option<string>,
    kind: string,
    createdAt: string)

  /** The legacy mapping: the row stands for both the delivery and the notification;
      it is read exactly when `is_read` is set, and only then has a read time (its
      creation time); missing content reads as "". */
  function FromLegacy(n: LegacyRow): (u: UserNotification)
    ensures u.id == n.id && u.notificationId == n.id && u.userId == n.userId && u.createdAt == n.createdAt
    ensures u.status == Read <==> n.isRead
    ensures u.status == Unread <==> !n.isRead
    ensures u.readAt.Some? <==> n.isRead
    ensures u.readAt.Some? ==> u.readAt.value == n.createdAt
    ensures u.notification == Some(Notification(n.id, n.title, OrEmpty(n.content), n.kind, None, n.createdAt))
  {
    UserNotification(
      n.id, n.id, n.userId,
      if n.isRead then Read else Unread,
      if n.isRead then Some(n.createdAt) else None,
      n.createdAt,
      Some(Notification(n.id, n.title, OrEmpty(n.content), n.kind, None, n.createdAt)))
  }

  /** `rows.map(...)` over the legacy rows: same length and order. */
  function FromLegacyRows(rows: seq<LegacyRow>): (us: seq<UserNotification>)
    ensures |us| == |rows|
    ensures forall i | 0 <= i < |rows| :: us[i] == FromLegacy(rows[i])
  {
    if rows == [] then [] else [FromLegacy(rows[0])] + FromLegacyRows(rows[1..])
  }

  // ---------------------------------------------------------------- profile rows

  /** A `profiles` row, read when `public_users` is missing. */
  datatype ProfileRow = ProfileRow(
    id: string,
    firstName: Option<string>,
    lastName: Option<string>,
    country: Option<string>,
    city: Option<string>,
    createdAt: string)

  /** `.filter(Boolean)` on optional strings: the present, non-empty ones, in order. */
  function Present(xs: seq<Option<string>>): (r: seq<string>)
    ensures |r| <= |xs|
    ensures forall i | 0 <= i < |r| :: r[i] != ""
  {
    if xs == [] then []
    else (if xs[0].Some? && xs[0].value != "" then [xs[0].value] else []) + Present(xs[1..])
  }

  function Given(x: Option<string>): bool {
    x.Some? && x.value != ""
  }

  /** The two-field case: both, one or none of the values. */
  lemma PresentOfTwo(a: Option<string>, b: Option<string>)
    ensures Given(a) && Given(b) ==> Present([a, b]) == [a.value, b.value]
    ensures Given(a) && !Given(b) ==> Present([a, b]) == [a.value]
    ensures !Given(a) && Given(b) ==> Present([a, b]) == [b.value]
    ensures !Given(a) && !Given(b) ==> Present([a, b]) == []
  {
    assert [a, b][1..] == [b];
    assert [b][1..] == [];
  }

  lemma JoinOfTwo(a: string, b: string, sep: string)
    ensures Join([a, b], sep) == a + sep + b
  {
    assert [a, b][1..] == [b];
  }

  const UnnamedUser: string := "Utilisateur"

  /** The displayed name: the given names joined by a space and trimmed, or
      "Utilisateur" when that leaves nothing. */
  function DisplayName(first: Option<string>, last: Option<string>): (name: string)
    ensures name != ""
    ensures Trim(Join(Present([first, last]), " ")) != "" ==> name == Trim(Join(Present([first, last]), " "))
    ensures Trim(Join(Present([first, last]), " ")) == "" ==> name == UnnamedUser
  {
    var joined := Trim(Join(Present([first, last]), " "));
    if joined == "" then UnnamedUser else joined
  }

  /** The name in each case: both names around one space, a single name trimmed, and
      the placeholder when no name is given or the names are blank. */
  lemma DisplayNameCases(first: Option<string>, last: Option<string>)
    ensures Given(first) && Given(last) && Trim(first.value + " " + last.value) != "" ==>
      DisplayName(first, last) == Trim(first.value + " " + last.value)
    ensures Given(first) && !Given(last) && Trim(first.value) != "" ==> DisplayName(first, last) == Trim(first.value)
    ensures !Given(first) && Given(last) && Trim(last.value) != "" ==> DisplayName(first, last) == Trim(last.value)
    ensures !Given(first) && !Given(last) ==> DisplayName(first, last) == UnnamedUser
    ensures Given(first) && Given(last) && AllSpace(first.value) && AllSpace(last.value) ==>
      DisplayName(first, last) == UnnamedUser
    ensures Given(first) && !Given(last) && AllSpace(first.value) ==> DisplayName(first, last) == UnnamedUser
    ensures !Given(first) && Given(last) && AllSpace(last.value) ==> DisplayName(first, last) == UnnamedUser
  {
    PresentOfTwo(first, last);
    if Given(first) && !Given(last) {
      TrimEmptyIffAllSpace(first.value);
    } else if !Given(first) && Given(last) {
      TrimEmptyIffAllSpace(last.value);
    } else if Given(first) && Given(last) {
      var f, l := first.value, last.value;
      JoinOfTwo(f, l, " ");
      if AllSpace(f) && AllSpace(l) {
        assert AllSpace(f + " " + l) by {
          forall i | 0 <= i < |f + " " + l| ensures IsSpace((f + " " + l)[i]) {
            if i < |f| { assert (f + " " + l)[i] == f[i]; }
            else if i > |f| { assert (f + " " + l)[i] == l[i - |f| - 1]; }
          }
        }
        TrimEmptyIffAllSpace(f + " " + l);
      }
    }
  }

  /** The displayed location: city and country joined by ", ", either alone, or "". */
  function DisplayLocation(city: Option<string>, country: Option<string>): (location: string)
    ensures Given(city) && Given(country) ==> location == city.value + ", " + country.value
    ensures Given(city) && !Given(country) ==> location == city.value
    ensures !Given(city) && Given(country) ==> location == country.value
    ensures !Given(city) && !Given(country) ==> location == ""
  {
    PresentOfTwo(city, country);
    JoinOfTwo(OrEmpty(city), OrEmpty(country), ", ");
    Join(Present([city, country]), ", ")
  }

  /** The profile mapping; the subscription, spend and update fields stay unset. */
  function FromProfile(p: ProfileRow): (u: PublicUser)
    ensures u.id == p.id && u.createdAt == p.createdAt && u.name != ""
    ensures u.name == DisplayName(p.firstName, p.lastName)
    ensures u.location == DisplayLocation(p.city, p.country)
  {
    PublicUser(p.id, DisplayName(p.firstName, p.lastName), DisplayLocation(p.city, p.country), p.createdAt)
  }

  // ---------------------------------------------------------------- list updates

  /** After an update: every notification with the id becomes the saved row, the others
      stay where they are. */
  function ReplaceById(ns: seq<Notification>, id: string, saved: Notification): (r: seq<Notification>)
    ensures |r| == |ns|
    ensures forall i | 0 <= i < |ns| :: ns[i].id == id ==> r[i] == saved
    ensures forall i | 0 <= i < |ns| :: ns[i].id != id ==> r[i] == ns[i]
  {
    if ns == [] then []
    else [if ns[0].id == id then saved else ns[0]] + ReplaceById(ns[1..], id, saved)
  }

  /** Replacing twice with the same row is replacing once, whatever id the row has. */
  lemma ReplaceByIdIdempotent(ns: seq<Notification>, id: string, saved: Notification)
    ensures ReplaceById(ReplaceById(ns, id, saved), id, saved) == ReplaceById(ns, id, saved)
  {
    var once := ReplaceById(ns, id, saved);
    var twice := ReplaceById(once, id, saved);
    forall i | 0 <= i < |ns| ensures twice[i] == once[i] {
      if ns[i].id == id {
        assert once[i] == saved;
      }
    }
  }

  /** After a delete: the notifications with other ids, in their order. */
  function RemoveById(ns: seq<Notification>, id: string): (r: seq<Notification>)
    ensures |r| <= |ns|
    ensures forall i | 0 <= i < |r| :: r[i].id != id
  {
    if ns == [] then []
    else (if ns[0].id != id then [ns[0]] else []) + RemoveById(ns[1..], id)
  }

  /** The delete keeps every other notification and only those. */
  lemma {:induction false} RemoveByIdMembers(ns: seq<Notification>, id: string, n: Notification)
    ensures n in RemoveById(ns, id) <==> n in ns && n.id != id
  {
    if ns != [] {
      RemoveByIdMembers(ns[1..], id, n);
      assert ns == [ns[0]] + ns[1..];
    }
  }

  /** The delete keeps the order: it works piece by piece. */
  lemma {:induction false} RemoveByIdAppend(a: seq<Notification>, b: seq<Notification>, id: string)
    ensures RemoveById(a + b, id) == RemoveById(a, id) + RemoveById(b, id)
  {
    if a == [] {
      assert a + b == b;
    } else {
      assert (a + b)[1..] == a[1..] + b;
      RemoveByIdAppend(a[1..], b, id);
    }
  }

  /** A list without the id is left as it is; so deleting twice is deleting once. */
  lemma {:induction false} RemoveByIdAbsent(ns: seq<Notification>, id: string)
    requires forall i | 0 <= i < |ns| :: ns[i].id != id
    ensures RemoveById(ns, id) == ns
  {
    if ns != [] {
      RemoveByIdAbsent(ns[1..], id);
    }
  }

  lemma RemoveByIdIdempotent(ns: seq<Notification>, id: string)
    ensures RemoveById(RemoveById(ns, id), id) == RemoveById(ns, id)
  {
    RemoveByIdAbsent(RemoveById(ns, id), id);
  }

  /** The rows `sendNotification` inserts. */
  datatype DeliveryInsert = DeliveryInsert(notificationId: string, userId: string, status: Delivery)

  /** One unread delivery per user id, in the order given. */
  function DeliveryRows(notificationId: string, userIds: seq<string>): (rows: seq<DeliveryInsert>)
    ensures |rows| == |userIds|
    ensures forall i | 0 <= i < |rows| :: rows[i] == DeliveryInsert(notificationId, userIds[i], Unread)
  {
    if userIds == [] then [] else [DeliveryInsert(notificationId, userIds[0], Unread)] + DeliveryRows(notificationId, userIds[1..])
  }

  /** After a send: only the sent notification's status becomes `sent`. */
  function MarkSent(ns: seq<Notification>, id: string): (r: seq<Notification>)
    ensures |r| == |ns|
    ensures forall i | 0 <= i < |ns| :: ns[i].id == id ==> r[i] == ns[i].(status := Some(Sent))
    ensures forall i | 0 <= i < |ns| :: ns[i].id != id ==> r[i] == ns[i]
  {
    if ns == [] then []
    else [if ns[0].id == id then ns[0].(status := Some(Sent)) else ns[0]] + MarkSent(ns[1..], id)
  }

  /** After `markAsRead`: only the delivery with the id becomes read, at the time the
      handler read the clock. */
  function MarkRead(us: seq<UserNotification>, id: string, now: string): (r: seq<UserNotification>)
    ensures |r| == |us|
    ensures forall i | 0 <= i < |us| :: us[i].id == id ==> r[i] == us[i].(status := Read, readAt := Some(now))
    ensures forall i | 0 <= i < |us| :: us[i].id != id ==> r[i] == us[i]
  {
    if us == [] then []
    else [if us[0].id == id then us[0].(status := Read, readAt := Some(now)) else us[0]] + MarkRead(us[1..], id, now)
  }

  /** Marking read again at the same time changes nothing more. */
  lemma MarkReadIdempotent(us: seq<UserNotification>, id: string, now: string)
    ensures MarkRead(MarkRead(us, id, now), id, now) == MarkRead(us, id, now)
  {
  }
}
