/** The recipient picker of the send page (src/components/admin/NotificationSend.tsx):
    the selection of user ids, the ten-per-page pagination of the recipient list and
    the guard of the send handler. The selection is a JavaScript `Set`, kept here as a
    sequence without repetitions in insertion order, the order `Array.from` yields. */
module NotificationSend {
  import opened JsBuiltins
  import opened NotificationRows

  // ---------------------------------------------------------------- selection

  predicate Distinct(xs: seq<string>) {
    forall i, j | 0 <= i < j < |xs| :: xs[i] != xs[j]
  }

  /** `set.delete(x)`: every other element, in order. */
  function Without(xs: seq<string>, x: string): (r: seq<string>)
    ensures forall y :: y in r <==> y in xs && y != x
    ensures Distinct(xs) ==> Distinct(r)
    ensures x !in xs ==> r == xs
  {
    if xs == [] then []
    else
      var rest := Without(xs[1..], x);
      assert forall y :: y in xs[1..] ==> y in xs;
      assert Distinct(xs) ==> Distinct(xs[1..]) && xs[0] !in xs[1..] by {
        if Distinct(xs) {
          forall i | 0 <= i < |xs[1..]| ensures xs[1..][i] != xs[0] {
            assert xs[1..][i] == xs[i + 1];
          }
        }
      }
      if xs[0] == x then rest else [xs[0]] + rest
  }

  /** Deleting keeps the order of what remains: over two runs of ids, the result is
      the first run's survivors followed by the second's. */
  lemma {:induction false} WithoutAppend(a: seq<string>, b: seq<string>, x: string)
    ensures Without(a + b, x) == Without(a, x) + Without(b, x)
  {
    if a != [] {
      assert (a + b)[1..] == a[1..] + b;
      WithoutAppend(a[1..], b, x);
    } else {
      assert a + b == b;
    }
  }

  /** In a set, the deleted id sits at one index, and the result is the sequence with
      just that entry taken out. */
  lemma {:induction false} WithoutRemovesAt(xs: seq<string>, x: string, i: int)
    requires Distinct(xs) && 0 <= i < |xs| && xs[i] == x
    ensures Without(xs, x) == xs[..i] + xs[i + 1..]
  {
    assert xs == xs[..i] + [x] + xs[i + 1..];
    WithoutAppend(xs[..i] + [x], xs[i + 1..], x);
    WithoutAppend(xs[..i], [x], x);
    assert x !in xs[..i] && x !in xs[i + 1..] by {
      forall j | 0 <= j < |xs| && j != i ensures xs[j] != x {
        if j < i { assert xs[j] != xs[i]; } else { assert xs[i] != xs[j]; }
      }
    }
    assert [x][1..] == [];
  }

  /** `handleSelectUser`: a selected id is deleted, any other is added at the end. */
  function Toggled(selected: seq<string>, id: string): (r: seq<string>)
    ensures Distinct(selected) ==> Distinct(r)
  {
    if id in selected then Without(selected, id) else selected + [id]
  }

  /** Toggling flips the membership of that id and of no other. */
  lemma ToggleFlipsOnly(selected: seq<string>, id: string, x: string)
    ensures x in Toggled(selected, id) <==> (if x == id then id !in selected else x in selected)
  {
  }

  /** Toggling twice restores the membership of every id; when the id was not
      selected it restores the very sequence, while a selected id comes back last. */
  lemma ToggleTwice(selected: seq<string>, id: string)
    ensures forall x :: x in Toggled(Toggled(selected, id), id) <==> x in selected
    ensures id !in selected ==> Toggled(Toggled(selected, id), id) == selected
    ensures id in selected ==> Toggled(Toggled(selected, id), id) == Without(selected, id) + [id]
  {
    if id !in selected {
      WithoutLast(selected, id);
    }
  }

  lemma {:induction false} WithoutLast(xs: seq<string>, x: string)
    requires x !in xs
    ensures Without(xs + [x], x) == xs
  {
    if xs != [] {
      assert (xs + [x])[1..] == xs[1..] + [x];
      WithoutLast(xs[1..], x);
    }
  }

  /** `new Set(ids)`: each id once, where it first appears. */
  function SetOf(ids: seq<string>): (r: seq<string>)
    ensures Distinct(r)
    ensures forall x :: x in r <==> x in ids
  {
    if ids == [] then []
    else
      var init := ids[..|ids| - 1];
      var prev := SetOf(init);
      assert ids == init + [ids[|ids| - 1]];
      if ids[|ids| - 1] in prev then prev else prev + [ids[|ids| - 1]]
  }

  function Ids(users: seq<PublicUser>): (ids: seq<string>)
    ensures |ids| == |users| && forall i | 0 <= i < |users| :: ids[i] == users[i].id
  {
    seq(|users|, i requires 0 <= i < |users| => users[i].id)
  }

  /** `handleSelectAll`: everything is cleared when the selection has as many ids as
      the page has users, and otherwise the selection becomes the page's ids. */
  function SelectAllResult(selected: seq<string>, page: seq<PublicUser>): (r: seq<string>)
    ensures |selected| == |page| ==> r == []
    ensures |selected| != |page| ==> forall x :: x in r <==> exists i | 0 <= i < |page| :: page[i].id == x
    ensures Distinct(r)
  {
    if |selected| == |page| then []
    else
      var ids := Ids(page);
      assert forall x :: x in ids <==> exists i | 0 <= i < |page| :: page[i].id == x;
      SetOf(ids)
  }

  /** Only the sizes are compared: a selection of the same size made entirely on
      another page is cleared, not replaced by this page's ids. */
  lemma SelectAllComparesSizes(u: PublicUser)
    requires u.id != "elsewhere"
    ensures SelectAllResult(["elsewhere"], [u]) == []
    ensures u.id !in ["elsewhere"]
  {
  }

  // ---------------------------------------------------------------- pagination

  const ItemsPerPage: nat := 10

  /** `Math.ceil(n / itemsPerPage)`. */
  function TotalPages(n: nat): (t: nat)
    ensures n <= t * ItemsPerPage < n + ItemsPerPage
  {
    (n + ItemsPerPage - 1) / ItemsPerPage
  }

  function StartIndex(page: int): int {
    (page - 1) * ItemsPerPage
  }

  /** `filteredUsers.slice(startIndex, startIndex + itemsPerPage)`. */
  function PageOf<T>(users: seq<T>, page: int): (r: seq<T>)
    ensures |r| <= |users|
  {
    Slice(users, StartIndex(page), StartIndex(page) + ItemsPerPage)
  }

  /** From page one on, a page holds at most ten users: those from the page's start
      index, or none past the end of the list. */
  lemma PageBounds<T>(users: seq<T>, page: int)
    requires page >= 1
    ensures |PageOf(users, page)| <= ItemsPerPage
    ensures StartIndex(page) < |users| ==>
      PageOf(users, page) == users[StartIndex(page)..Min(StartIndex(page) + ItemsPerPage, |users|)]
    ensures StartIndex(page) >= |users| ==> PageOf(users, page) == []
  {
  }

  function Min(a: int, b: int): int {
    if a <= b then a else b
  }

  /** The range label's end: `Math.min(startIndex + itemsPerPage, n)`. */
  function RangeEnd(page: int, n: nat): int {
    Min(StartIndex(page) + ItemsPerPage, n)
  }

  /** On a page that exists, the users shown are those the label counts, from
      `startIndex + 1` to its end. */
  lemma RangeMatchesPage<T>(users: seq<T>, page: int)
    requires 1 <= page <= TotalPages(|users|)
    ensures 0 < |PageOf(users, page)| == RangeEnd(page, |users|) - StartIndex(page)
  {
  }

  /** The pages from the first to the last, one after the other. */
  function Pages<T>(users: seq<T>, count: nat): seq<T> {
    if count == 0 then [] else Pages(users, count - 1) + PageOf(users, count)
  }

  /** Reading every page in turn shows each user once, in list order. */
  lemma {:induction false} PagesCoverList<T>(users: seq<T>, count: nat)
    ensures Pages(users, count) == users[..Min(count * ItemsPerPage, |users|)]
  {
    if count > 0 {
      PagesCoverList(users, count - 1);
      var a := Min((count - 1) * ItemsPerPage, |users|);
      var b := Min(count * ItemsPerPage, |users|);
      assert PageOf(users, count) == users[a..b];
      assert users[..a] + users[a..b] == users[..b];
    }
  }

  lemma AllPagesAreTheList<T>(users: seq<T>)
    ensures Pages(users, TotalPages(|users|)) == users
  {
    PagesCoverList(users, TotalPages(|users|));
  }

  /** "Précédent": `Math.max(1, currentPage - 1)`. */
  function PreviousPage(page: int): (r: int)
    ensures r >= 1
    ensures page > 1 ==> r == page - 1
  {
    if page - 1 >= 1 then page - 1 else 1
  }

  /** "Suivant": `Math.min(totalPages, currentPage + 1)`. */
  function NextPage(page: int, total: nat): (r: int)
    ensures r <= total
    ensures page < total ==> r == page + 1
    ensures 1 <= page <= total ==> 1 <= r
  {
    if page + 1 <= total then page + 1 else total
  }

  // ---------------------------------------------------------------- the page state

  const NeedRecipientAlert: string := "Veuillez sélectionner au moins un destinataire"
  const SentAlert: string := "Notification envoyée avec succès"
  const SendErrorAlert: string := "Erreur lors de l'envoi de la notification"
  const NotificationsRoute: string := "/admin/notifications"

  /** The confirmation question, with the number of recipients. */
  function ConfirmText(count: nat): (r: string)
    ensures |r| > |NatToString(count)|
  {
    "Êtes-vous sûr de vouloir envoyer cette notification à " + NatToString(count) + " destinataire(s) ?"
  }

  /** What the send handler did: the store call it made (the notification id and the
      recipients), the question it asked, the alert it raised and where it went. */
  datatype SendEffects = SendEffects(
    call: Option<(string, seq<string>)>,
    asked: Option<string>,
    alert: Option<string>,
    navigateTo: Option<string>)

  class SendView {
    var users: seq<PublicUser>
    var selected: seq<string>
    var currentPage: int
    var sending: bool

    /** The page as it opens: nothing selected, page one. */
    constructor (users: seq<PublicUser>)
      ensures this.users == users && selected == [] && currentPage == 1 && !sending
      ensures Valid()
    {
      this.users := users;
      selected := [];
      currentPage := 1;
      sending := false;
    }

    /** The selection is a set: no id twice. */
    predicate Valid()
      reads this`selected
    {
      Distinct(selected)
    }

    /** The users of the current page. */
    function Paginated(): seq<PublicUser>
      reads this`users, this`currentPage
    {
      PageOf(users, currentPage)
    }

    /** `handleSelectUser`: a copy of the set, then one `delete` or one `add`. */
    method SelectUser(userId: string)
      requires Valid()
      modifies this`selected
      ensures selected == Toggled(old(selected), userId)
      ensures Valid()
    {
      var next := selected;
      if userId in next {
        next := Without(next, userId);
      } else {
        next := next + [userId];
      }
      selected := next;
    }

    /** `handleSelectAll`. */
    method SelectAll()
      requires Valid()
      modifies this`selected
      ensures selected == SelectAllResult(old(selected), Paginated())
      ensures Valid()
    {
      selected := SelectAllResult(selected, Paginated());
    }

    method PreviousClicked()
      modifies this`currentPage
      ensures currentPage == PreviousPage(old(currentPage)) && currentPage >= 1
    {
      currentPage := PreviousPage(currentPage);
    }

    method NextClicked()
      modifies this`currentPage
      ensures currentPage == NextPage(old(currentPage), TotalPages(|users|))
      ensures currentPage <= TotalPages(|users|)
    {
      currentPage := NextPage(currentPage, TotalPages(|users|));
    }

    /** `handleSend`: with nothing selected it only alerts; otherwise it asks for
        confirmation, and once confirmed calls the store with the selected ids. The
        store's answer `succeeded` picks the alert, and success leads back to the
        list. */
    method Send(notificationId: string, confirmed: bool, succeeded: bool) returns (effects: SendEffects)
      modifies this`sending
      ensures !sending
      ensures |selected| == 0 ==> effects == SendEffects(None, None, Some(NeedRecipientAlert), None)
      ensures |selected| > 0 ==> effects.asked == Some(ConfirmText(|selected|))
      ensures |selected| > 0 && !confirmed ==> effects.call.None? && effects.alert.None? && effects.navigateTo.None?
      ensures effects.call.Some? <==> |selected| > 0 && confirmed
      ensures effects.call.Some? ==> effects.call.value == (notificationId, selected)
      ensures effects.call.Some? && succeeded ==>
        effects.alert == Some(SentAlert) && effects.navigateTo == Some(NotificationsRoute)
      ensures effects.call.Some? && !succeeded ==> effects.alert == Some(SendErrorAlert) && effects.navigateTo.None?
    {
      if |selected| == 0 {
        sending := false;
        return SendEffects(None, None, Some(NeedRecipientAlert), None);
      }
      var question := ConfirmText(|selected|);
      if !confirmed {
        sending := false;
        return SendEffects(None, Some(question), None, None);
      }
      sending := true;
      var call := (notificationId, selected);
      if succeeded {
        effects := SendEffects(Some(call), Some(question), Some(SentAlert), Some(NotificationsRoute));
      } else {
        effects := SendEffects(Some(call), Some(question), Some(SendErrorAlert), None);
      }
      sending := false;
    }
  }
}
