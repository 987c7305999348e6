/** The notification store (src/store/notificationStore.ts): the lists it keeps, its
    loading flag and its last error, and the actions that change them. Each database
    call is a parameter: the answer to a write (a function of the payload sent, for the
    retried writes) or the error message a call returned, if any. */
module NotificationStore {
  import opened JsBuiltins
  import opened NotificationRows
  import opened NotificationRetry

  /** What a read query returned: its rows, or an error with its message. */
  datatype Answer<T> = Rows(rows: seq<T>) | Failed(message: string)

  /** The text of the error a read or write of `user_notifications` returns when the
      table does not exist in the project. */
  const MissingDeliveriesTable: string := "Could not find the table 'public.user_notifications'"

  /** The same for `public_users`. */
  const MissingPublicUsersTable: string := "Could not find the table 'public.public_users'"

  /** How a read of deliveries ends: the rows to show, or the error thrown. The legacy
      table is read only when the primary read failed because the table is missing. */
  function DeliveriesRead(primary: Answer<UserNotification>, legacy: Answer<LegacyRow>): (r: Answer<UserNotification>)
    ensures primary.Rows? ==> r == primary
    ensures primary.Failed? && !Contains(primary.message, MissingDeliveriesTable) ==> r == primary
    ensures primary.Failed? && Contains(primary.message, MissingDeliveriesTable) ==>
      (legacy.Rows? ==> r == Rows(FromLegacyRows(legacy.rows))) && (legacy.Failed? ==> r == Failed(legacy.message))
  {
    match primary
    case Rows(_) => primary
    case Failed(message) =>
      if !Contains(message, MissingDeliveriesTable) then primary
      else match legacy
        case Rows(rows) => Rows(FromLegacyRows(rows))
        case Failed(legacyMessage) => Failed(legacyMessage)
  }

  /** How a read of the recipients ends; the profiles are read only when `public_users`
      is missing. */
  function PublicUsersRead(primary: Answer<PublicUser>, profiles: Answer<ProfileRow>): (r: Answer<PublicUser>)
    ensures primary.Rows? ==> r == primary
    ensures primary.Failed? && !Contains(primary.message, MissingPublicUsersTable) ==> r == primary
    ensures primary.Failed? && Contains(primary.message, MissingPublicUsersTable) && profiles.Rows? ==>
      r.Rows? && |r.rows| == |profiles.rows|
      && forall i | 0 <= i < |r.rows| :: r.rows[i] == FromProfile(profiles.rows[i])
    ensures primary.Failed? && Contains(primary.message, MissingPublicUsersTable) && profiles.Failed? ==>
      r == Failed(profiles.message)
  {
    match primary
    case Rows(_) => primary
    case Failed(message) =>
      if !Contains(message, MissingPublicUsersTable) then primary
      else match profiles
        case Rows(rows) => Rows(seq(|rows|, i requires 0 <= i < |rows| => FromProfile(rows[i])))
        case Failed(profilesMessage) => Failed(profilesMessage)
  }

  /** A missing-table message read from the legacy table gives exactly the legacy
      mapping, so every legacy row shows as a delivery of itself. */
  lemma LegacyFallbackMapsEveryRow(message: string, rows: seq<LegacyRow>)
    requires Contains(message, MissingDeliveriesTable)
    ensures var r := DeliveriesRead(Failed(message), Rows(rows));
      r.Rows? && |r.rows| == |rows|
      && forall i | 0 <= i < |rows| :: r.rows[i].id == rows[i].id && r.rows[i].notificationId == rows[i].id
  {
  }

  /** The message of the missing table is itself recognised. */
  lemma MissingTableRecognised(prefix: string, suffix: string)
    ensures Contains(prefix + MissingDeliveriesTable + suffix, MissingDeliveriesTable)
  {
    ContainsMiddle(prefix + MissingDeliveriesTable + suffix, prefix, MissingDeliveriesTable, suffix);
  }

  /** A created row deleted again leaves the list as it was before the create, when no
      notification had its id. */
  lemma {:induction false} CreateThenDeleteRestores(ns: seq<Notification>, row: Notification)
    requires forall i | 0 <= i < |ns| :: ns[i].id != row.id
    ensures RemoveById([row] + ns, row.id) == ns
  {
    RemoveByIdAppend([row], ns, row.id);
    RemoveByIdAbsent(ns, row.id);
    assert RemoveById([row], row.id) == [];
    assert [] + ns == ns;
  }

  /** After a send, a send of the same notification again changes nothing in the list. */
  lemma MarkSentIdempotent(ns: seq<Notification>, id: string)
    ensures MarkSent(MarkSent(ns, id), id) == MarkSent(ns, id)
  {
  }

  class Store {
    var notifications: seq<Notification>
    var userNotifications: seq<UserNotification>
    var publicUsers: seq<PublicUser>
    var loading: bool
    var error: Option<string>

    /** The store as created: empty lists, not loading, no error. */
    constructor ()
      ensures notifications == [] && userNotifications == [] && publicUsers == []
      ensures !loading && error == None
    {
      notifications := [];
      userNotifications := [];
      publicUsers := [];
      loading := false;
      error := None;
    }

    /** `fetchUserNotifications`: the deliveries read, through the legacy table when the
        primary one is missing; on an error the list stays and the error is kept. */
    method FetchUserNotifications(primary: Answer<UserNotification>, legacy: Answer<LegacyRow>)
      modifies this`userNotifications, this`loading, this`error
      ensures var r := DeliveriesRead(primary, legacy);
        && (r.Rows? ==> userNotifications == r.rows && error == None)
        && (r.Failed? ==> userNotifications == old(userNotifications) && error == Some(r.message))
      ensures !loading
    {
      loading, error := true, None;
      match primary {
        case Rows(rows) =>
          userNotifications := rows;
        case Failed(message) =>
          if Contains(message, MissingDeliveriesTable) {
            match legacy {
              case Rows(rows) =>
                userNotifications := FromLegacyRows(rows);
              case Failed(legacyMessage) =>
                error := Some(legacyMessage);
            }
          } else {
            error := Some(message);
          }
      }
      loading := false;
    }

    /** `fetchPublicUsers`: the recipients read, through `profiles` when `public_users`
        is missing. */
    method FetchPublicUsers(primary: Answer<PublicUser>, profiles: Answer<ProfileRow>)
      modifies this`publicUsers, this`loading, this`error
      ensures var r := PublicUsersRead(primary, profiles);
        && (r.Rows? ==> publicUsers == r.rows && error == None)
        && (r.Failed? ==> publicUsers == old(publicUsers) && error == Some(r.message))
      ensures !loading
    {
      loading, error := true, None;
      var r := PublicUsersRead(primary, profiles);
      if r.Rows? {
        publicUsers := r.rows;
      } else {
        error := Some(r.message);
      }
      loading := false;
    }

    /** `createNotification`: the retried insert; on success the saved row goes first
        in the list and is returned, on a throw the error is kept and nothing is
        returned. */
    method CreateNotification(insert: Payload -> Response, input: Payload) returns (created: Option<Notification>)
      modifies this`notifications, this`loading, this`error
      ensures var (outcome, _) := Attempts(ShiftOnce, insert, input, InitialTryOrder(input), 0);
        && (outcome.Saved? ==> created == Some(outcome.row) && notifications == [outcome.row] + old(notifications)
                               && error == None)
        && (outcome.Threw? ==> created == None && notifications == old(notifications)
                               && error == Some(outcome.message))
      ensures !loading
    {
      loading, error := true, None;
      var outcome, _ := WriteWithRetry(insert, input);
      match outcome {
        case Saved(row) =>
          notifications := [row] + notifications;
          created := Some(row);
        case Threw(message) =>
          error := Some(message);
          created := None;
      }
      loading := false;
    }

    /** `updateNotification`: the retried update of the row with the id; on success
        every notification with that id becomes the saved row. */
    method UpdateNotification(update: Payload -> Response, id: string, input: Payload) returns (ok: bool)
      modifies this`notifications, this`loading, this`error
      ensures var (outcome, _) := Attempts(ShiftOnce, update, input, InitialTryOrder(input), 0);
        && (outcome.Saved? ==> ok && notifications == ReplaceById(old(notifications), id, outcome.row)
                               && error == None)
        && (outcome.Threw? ==> !ok && notifications == old(notifications) && error == Some(outcome.message))
      ensures !loading
    {
      loading, error := true, None;
      var outcome, _ := WriteWithRetry(update, input);
      match outcome {
        case Saved(row) =>
          notifications := ReplaceById(notifications, id, row);
          ok := true;
        case Threw(message) =>
          error := Some(message);
          ok := false;
      }
      loading := false;
    }

    /** `deleteNotification`: `failure` is the delete's error message, if any. */
    method DeleteNotification(id: string, failure: Option<string>) returns (ok: bool)
      modifies this`notifications, this`loading, this`error
      ensures ok <==> failure.None?
      ensures failure.None? ==> notifications == RemoveById(old(notifications), id) && error == None
      ensures failure.Some? ==> notifications == old(notifications) && error == failure
      ensures !loading
    {
      loading, error := true, None;
      if failure.Some? {
        error := failure;
        ok := false;
      } else {
        notifications := RemoveById(notifications, id);
        ok := true;
      }
      loading := false;
    }

    /** `sendNotification`: the delivery rows inserted (one unread row per user, in
        order), then, when the insert succeeded, the notification marked sent. The
        status update's own answer is not looked at. */
    method SendNotification(notificationId: string, userIds: seq<string>, insertFailure: Option<string>)
      returns (ok: bool, inserted: seq<DeliveryInsert>)
      modifies this`notifications, this`loading, this`error
      ensures inserted == DeliveryRows(notificationId, userIds)
      ensures ok <==> insertFailure.None?
      ensures insertFailure.None? ==> notifications == MarkSent(old(notifications), notificationId) && error == None
      ensures insertFailure.Some? ==> notifications == old(notifications) && error == insertFailure
      ensures !loading
    {
      loading, error := true, None;
      inserted := DeliveryRows(notificationId, userIds);
      if insertFailure.Some? {
        error := insertFailure;
        ok := false;
      } else {
        notifications := MarkSent(notifications, notificationId);
        ok := true;
      }
      loading := false;
    }

    /** `markAsRead`: `failure` is the update's error message and `legacyFailure` that
        of the legacy update, tried only when the deliveries table is missing. On
        success only the delivery with the id becomes read at `now`. */
    method MarkAsRead(id: string, now: string, failure: Option<string>, legacyFailure: Option<string>)
      returns (ok: bool)
      modifies this`userNotifications, this`loading, this`error
      ensures var thrown := if failure.None? then None
                           else if Contains(failure.value, MissingDeliveriesTable) then legacyFailure
                           else failure;
        && (ok <==> thrown.None?)
        && (thrown.None? ==> userNotifications == MarkRead(old(userNotifications), id, now) && error == None)
        && (thrown.Some? ==> userNotifications == old(userNotifications) && error == thrown)
      ensures !loading
    {
      loading, error := true, None;
      var thrown := failure;
      if failure.Some? && Contains(failure.value, MissingDeliveriesTable) {
        thrown := legacyFailure;
      }
      if thrown.Some? {
        error := thrown;
        ok := false;
      } else {
        userNotifications := MarkRead(userNotifications, id, now);
        ok := true;
      }
      loading := false;
    }
  }
}
