/** The notification editor (src/components/admin/NotificationForm.tsx): the text splice
    of the formatting toolbar, the guard and dispatch of the save handler, and the
    expiry shown when a notification is loaded. Indices count characters. */
module NotificationForm {
  import opened JsBuiltins

  // ---------------------------------------------------------------- formatting toolbar

  /** The text area's selection, `selectionStart` and `selectionEnd`. */
  datatype Selection = Selection(start: int, end: int)

  /** A selection the text area can hold on `content`. */
  predicate Within(sel: Selection, content: string) {
    0 <= sel.start <= sel.end <= |content|
  }

  /** `insertFormatting(before, after)`: without a text area nothing changes; otherwise
      the selected text is wrapped in `before` and `after`, and the new selection is
      the old one shifted past `before`. */
  function InsertFormatting(content: string, area: Option<Selection>, before: string, after: string)
    : (r: (string, Option<Selection>))
    ensures area.None? ==> r == (content, None)
    ensures area.Some? ==> r.1 == Some(Selection(area.value.start + |before|, area.value.end + |before|))
    ensures area.Some? && Within(area.value, content) ==>
      var (s, e) := (area.value.start, area.value.end);
      var text := r.0;
      && |text| == |content| + |before| + |after|
      && text[..s] == content[..s]
      && text[s..s + |before|] == before
      && text[s + |before|..e + |before|] == content[s..e]
      && text[e + |before|..e + |before| + |after|] == after
      && text[e + |before| + |after|..] == content[e..]
  {
    match area
    case None => (content, None)
    case Some(sel) =>
      var selected := Substring(content, sel.start, sel.end);
      var text := Substring(content, 0, sel.start) + before + selected + after + SubstringFrom(content, sel.end);
      var moved := Some(Selection(sel.start + |before|, sel.end + |before|));
      if Within(sel, content) then
        SpliceLayout(content, sel.start, sel.end, before, after);
        (text, moved)
      else (text, moved)
  }

  /** Where the pieces of `content[..s] + before + content[s..e] + after + content[e..]` sit. */
  lemma SpliceLayout(content: string, s: int, e: int, before: string, after: string)
    requires 0 <= s <= e <= |content|
    ensures var text := content[..s] + before + content[s..e] + after + content[e..];
      && |text| == |content| + |before| + |after|
      && text[..s] == content[..s]
      && text[s..s + |before|] == before
      && text[s + |before|..e + |before|] == content[s..e]
      && text[e + |before|..e + |before| + |after|] == after
      && text[e + |before| + |after|..] == content[e..]
  {
    var head := content[..s] + before;
    var middle := head + content[s..e];
    var wrapped := middle + after;
    var text := wrapped + content[e..];
    assert text[..|wrapped|] == wrapped && text[|wrapped|..] == content[e..];
    assert wrapped[..|middle|] == middle && wrapped[|middle|..] == after;
    assert middle[..|head|] == head && middle[|head|..] == content[s..e];
    assert head[..s] == content[..s] && head[s..] == before;
  }

  /** The new selection covers the same text as the old one, now inside the wrapping. */
  lemma SelectionFollowsText(content: string, sel: Selection, before: string, after: string)
    requires Within(sel, content)
    ensures var (text, moved) := InsertFormatting(content, Some(sel), before, after);
      moved.Some? && Within(moved.value, text) && text[moved.value.start..moved.value.end] == content[sel.start..sel.end]
  {
  }

  /** Wrapping in nothing leaves the text as it was. */
  lemma EmptyWrappingKeepsText(content: string, sel: Selection)
    requires Within(sel, content)
    ensures InsertFormatting(content, Some(sel), "", "").0 == content
  {
    var text := InsertFormatting(content, Some(sel), "", "").0;
    assert text == content[..sel.start] + content[sel.start..sel.end] + content[sel.end..];
    assert content == content[..sel.start] + content[sel.start..sel.end] + content[sel.end..];
  }

  // ---------------------------------------------------------------- save

  /** The fields the save handler checks and sends. */
  datatype FormData = FormData(title: string, content: string, expiresAt: string)

  const FillInAlert: string := "Veuillez remplir le titre et le contenu"
  const SaveErrorAlert: string := "Erreur lors de la sauvegarde"

  /** What `handleSave` goes on to do: refuse (with an alert when confirmations are
      shown), fail because nobody is signed in, or call the store to update the
      notification being edited or to create a new one. */
  datatype SaveAction = Refused(alert: Option<string>) | NotSignedIn(alert: Option<string>) | Update(id: string) | Create

  function PlanSave(form: FormData, id: Option<string>, showConfirmation: bool, signedIn: bool): (a: SaveAction)
    ensures a.Refused? <==> form.title == "" || form.content == ""
    ensures a.Refused? ==> a.alert == (if showConfirmation then Some(FillInAlert) else None)
    ensures a.NotSignedIn? <==> form.title != "" && form.content != "" && !signedIn
    ensures a.NotSignedIn? ==> a.alert == (if showConfirmation then Some(SaveErrorAlert) else None)
    ensures a.Update? <==> form.title != "" && form.content != "" && signedIn && id.Some? && id.value != ""
    ensures a.Update? ==> id == Some(a.id)
    ensures a.Create? <==> form.title != "" && form.content != "" && signedIn && (id.None? || id.value == "")
  {
    if form.title == "" || form.content == "" then Refused(if showConfirmation then Some(FillInAlert) else None)
    else if !signedIn then NotSignedIn(if showConfirmation then Some(SaveErrorAlert) else None)
    else if id.Some? && id.value != "" then Update(id.value)
    else Create
  }

  /** The auto-save timer saves only when both fields are filled, so it never runs
      into the refusal, and it never alerts. */
  lemma AutoSaveNeverRefusedNorAlerts(form: FormData, id: Option<string>, signedIn: bool)
    requires form.title != "" && form.content != ""
    ensures var a := PlanSave(form, id, false, signedIn);
      !a.Refused? && (a.NotSignedIn? ==> a.alert.None?)
  {
  }

  // ---------------------------------------------------------------- loading

  /** `data.expires_at ? data.expires_at.substring(0, 16) : ""`: the first sixteen
      characters, the `YYYY-MM-DDTHH:MM` a date-time input takes. */
  function LoadedExpiry(expiresAt: Option<string>): (r: string)
    ensures |r| <= 16
    ensures expiresAt.Some? ==> |r| <= |expiresAt.value| && r == expiresAt.value[..|r|]
    ensures expiresAt.Some? && |expiresAt.value| >= 16 ==> |r| == 16
    ensures expiresAt.None? ==> r == ""
  {
    if expiresAt.Some? && expiresAt.value != "" then Substring(expiresAt.value, 0, 16) else ""
  }
}
