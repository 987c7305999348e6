/** The notification self-check script (scripts/testNotifications.js): its own copies of
    the label tables and of the status and message formatters, and the checks its `run`
    performs. The script's `formatDateFR` (lines 1-8) is the library's text unchanged,
    so `NotificationFormatter.FormatDateFR` stands for both. */
module NotificationScript {
  import opened JsBuiltins
  import opened Domain
  import opened NotificationFormatter

  /** The script's `STATUS_LABELS`, an object keyed by the database identifiers. */
  const ScriptLabels: map<string, string> := map[
    "received_china" := "Reçu en Chine",
    "in_transit" := "En transit",
    "arrived_africa" := "Arrivé en Afrique",
    "available_warehouse" := "Disponible à l'entrepôt",
    "picked_up" := "Récupéré"]

  /** The script's `NEXT_STEPS`. */
  const ScriptNextSteps: map<string, string> := map[
    "received_china" := "Préparation en cours",
    "in_transit" := "Prochaine: arrivée en Afrique",
    "arrived_africa" := "Prochaine: disponible à l'entrepôt",
    "available_warehouse" := "Prochaine: retrait",
    "picked_up" := "Fin: colis récupéré"]

  /** The script's tables have an entry for exactly the five status identifiers, and
      each entry is the library's. */
  lemma ScriptTablesMatchLibrary(s: PackageStatus)
    ensures StatusKey(s) in ScriptLabels && ScriptLabels[StatusKey(s)] == StatusLabel(s)
    ensures StatusKey(s) in ScriptNextSteps && ScriptNextSteps[StatusKey(s)] == NextStep(s)
  {
  }

  lemma ScriptTablesKeys()
    ensures ScriptLabels.Keys == ScriptNextSteps.Keys
    ensures forall k | k in ScriptLabels :: exists s: PackageStatus :: StatusKey(s) == k
  {
    assert StatusKey(ReceivedChina) == "received_china";
    assert StatusKey(InTransit) == "in_transit";
    assert StatusKey(ArrivedAfrica) == "arrived_africa";
    assert StatusKey(AvailableWarehouse) == "available_warehouse";
    assert StatusKey(PickedUp) == "picked_up";
  }

  /** `location && location.trim()`: a non-empty location whose trimmed text is
      non-empty. */
  predicate ScriptHasLocation(location: Option<string>) {
    location.Some? && location.value != "" && Trim(location.value) != ""
  }

  /** The script's test is the library's: the extra `location &&` adds nothing, since an
      empty string trims to an empty string. */
  lemma ScriptLocationTestMatches(location: Option<string>)
    ensures ScriptHasLocation(location) <==> HasLocation(location)
  {
  }

  /** The script's `formatStatusNotification`: the clock always supplies the timestamp. */
  function ScriptFormatStatus(trackingNumber: string, status: PackageStatus, location: Option<string>,
                              now: LocalDateTime): (r: string)
    ensures |r| <= MaxLength
  {
    ScriptTablesMatchLibrary(status);
    var heading := ScriptLabels[StatusKey(status)];
    var next := ScriptNextSteps[StatusKey(status)];
    var when := FormatDateFR(now);
    var parts := ["Statut de votre colis (numéro de suivi: " + trackingNumber + "): " + heading, when];
    var parts := if ScriptHasLocation(location) then parts + ["Lieu: " + Trim(location.value)] else parts;
    var parts := if next != "" then parts + [next] else parts;
    Truncate(Join(parts, Separator))
  }

  /** The script's status formatter is the library's with `updatedAt` omitted. */
  lemma ScriptStatusMatchesLibrary(trackingNumber: string, status: PackageStatus, location: Option<string>,
                                   now: LocalDateTime)
    ensures ScriptFormatStatus(trackingNumber, status, location, now)
         == FormatStatusNotification(trackingNumber, status, location, None, now)
  {
    ScriptTablesMatchLibrary(status);
    ScriptLocationTestMatches(location);
  }

  /** The script's `formatMessageNotification`. */
  function ScriptFormatMessage(trackingNumber: string, senderRole: string, now: LocalDateTime): (r: string)
    ensures |r| <= MaxLength
  {
    var when := FormatDateFR(now);
    var from := if senderRole == "admin" then "de l'administration" else "du client";
    Truncate("Nouveau message " + from + " concernant le colis (numéro de suivi: " + trackingNumber + ")"
      + Separator + when)
  }

  lemma ScriptMessageMatchesLibrary(trackingNumber: string, senderRole: string, now: LocalDateTime)
    ensures ScriptFormatMessage(trackingNumber, senderRole, now) == FormatMessageNotification(trackingNumber, senderRole, now)
  {
  }

  /** The tracking number `run` uses. */
  const Tracking: string := "ABC123456789"

  /** The location `run` passes for `arrived_africa`, and none for the other statuses. */
  function RunLocation(s: PackageStatus): Option<string> {
    if s == ArrivedAfrica then Some("Kinshasa, RDC") else None
  }

  lemma HeaderLength(trackingNumber: string, status: PackageStatus)
    ensures |StatusHeader(trackingNumber, status)| == 43 + |trackingNumber| + |StatusLabel(status)|
    ensures |StatusLabel(status)| <= 23
  {
  }

  /** The checks of `run`'s loop: for every status, the text names the tracking number
      and the status label and fits in 160 characters, whatever the clock reads. */
  lemma RunStatusChecks(s: PackageStatus, now: LocalDateTime)
    ensures var msg := ScriptFormatStatus(Tracking, s, RunLocation(s), now);
      Contains(msg, Tracking) && Contains(msg, StatusLabel(s)) && |msg| <= 160
  {
    ScriptStatusMatchesLibrary(Tracking, s, RunLocation(s), now);
    HeaderLength(Tracking, s);
    StatusNamesPackage(Tracking, s, RunLocation(s), None, now);
  }

  /** The `arrived_africa` case of `run`: for a clock with a year of at most four digits,
      the text is not cut and carries the location segment and the next-step hint. */
  lemma RunKinshasaCase(now: LocalDateTime)
    requires now.Valid() && 0 <= now.year <= 9999
    ensures var msg := ScriptFormatStatus(Tracking, ArrivedAfrica, Some("Kinshasa, RDC"), now);
      |msg| <= 150 && Contains(msg, "Lieu: Kinshasa, RDC") && Contains(msg, "Prochaine: disponible à l'entrepôt")
  {
    var loc := Some("Kinshasa, RDC");
    var when := FormatDateFR(now);
    assert |when| <= 16;
    ScriptStatusMatchesLibrary(Tracking, ArrivedAfrica, loc, now);
    assert StatusTime(None, now) == now;
    KinshasaText(when);
    ArrivedTexts();
  }

  /** The assembled `arrived_africa` text for Kinshasa, whatever the timestamp. */
  lemma KinshasaText(when: string)
    ensures var m := AssembledStatus(Tracking, ArrivedAfrica, Some("Kinshasa, RDC"), when);
      |m| == 134 + |when| && Contains(m, "Lieu: Kinshasa, RDC") && Contains(m, NextStep(ArrivedAfrica))
  {
    var city := "Kinshasa, RDC";
    KinshasaTrims();
    KinshasaLengths();
    ArrivedTexts();
    HeaderLength(Tracking, ArrivedAfrica);
    LocationSegmentKept(Tracking, ArrivedAfrica, city, when);
    assert "Lieu: " + Trim(city) == "Lieu: Kinshasa, RDC";
  }

  lemma KinshasaTrims()
    ensures Trim("Kinshasa, RDC") == "Kinshasa, RDC"
  {
    var s := "Kinshasa, RDC";
    assert !IsSpace(s[0]) && !IsSpace(s[|s| - 1]);
  }

  lemma KinshasaLengths()
    ensures "Lieu: " + "Kinshasa, RDC" == "Lieu: Kinshasa, RDC"
    ensures |"Kinshasa, RDC"| == 13 && |Tracking| == 12
  {
  }

  lemma ArrivedTexts()
    ensures |StatusLabel(ArrivedAfrica)| == 17 && |NextStep(ArrivedAfrica)| == 34
    ensures NextStep(ArrivedAfrica) == "Prochaine: disponible à l'entrepôt"
  {
  }

  /** With a non-blank location, the assembled status text has a definite length and
      holds the `Lieu:` segment and the hint; a text of at most 160 is not cut. */
  lemma LocationSegmentKept(trackingNumber: string, status: PackageStatus, location: string, when: string)
    requires Trim(location) != ""
    ensures var m := AssembledStatus(trackingNumber, status, Some(location), when);
      && |m| == |StatusHeader(trackingNumber, status)| + |when| + |Trim(location)| + |NextStep(status)| + 15
      && Contains(m, "Lieu: " + Trim(location)) && Contains(m, NextStep(status))
      && (|m| <= MaxLength ==> Truncate(m) == m)
  {
    var lieu := "Lieu: " + Trim(location);
    LayoutWithLocation(trackingNumber, status, Some(location), when);
    FourSegments(StatusHeader(trackingNumber, status), when, lieu, NextStep(status));
    assert |lieu| == 6 + |Trim(location)|;
  }

  lemma FourSegments(header: string, when: string, seg: string, next: string)
    ensures var m := header + Separator + when + (Separator + seg) + Separator + next;
      |m| == |header| + |when| + |seg| + |next| + 9 && Contains(m, seg) && Contains(m, next)
  {
    var m := header + Separator + when + (Separator + seg) + Separator + next;
    var h := header + Separator + when + Separator;
    assert m == h + seg + (Separator + next);
    ContainsMiddle(m, h, seg, Separator + next);
    assert m == (h + seg + Separator) + next + "";
    ContainsMiddle(m, h + seg + Separator, next, "");
  }

  /** The message checks of `run`: for both roles the text names the tracking number and
      fits in 160 characters. */
  lemma RunMessageChecks(now: LocalDateTime)
    ensures var c := ScriptFormatMessage(Tracking, "client", now); Contains(c, Tracking) && |c| <= 160
    ensures var a := ScriptFormatMessage(Tracking, "admin", now); Contains(a, Tracking) && |a| <= 160
  {
    ScriptMessageMatchesLibrary(Tracking, "client", now);
    ScriptMessageMatchesLibrary(Tracking, "admin", now);
    MessageNamesSender(Tracking, "client", now);
    MessageNamesSender(Tracking, "admin", now);
  }
}
