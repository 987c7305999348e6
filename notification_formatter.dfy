/** The notification text formatter (src/utils/notificationFormatter.ts): French,
    length-bounded texts for a status change, a new package and a new chat message.
    The clock is a parameter: `now` is the local date and time the caller read. */
module NotificationFormatter {
  import opened JsBuiltins
  import opened Domain

  /** `STATUS_LABELS` and `statusLabel`: the display label of each status. */
  function StatusLabel(s: PackageStatus): (r: string)
    ensures r != ""
  {
    match s
    case ReceivedChina => "Reçu en Chine"
    case InTransit => "En transit"
    case ArrivedAfrica => "Arrivé en Afrique"
    case AvailableWarehouse => "Disponible à l'entrepôt"
    case PickedUp => "Récupéré"
  }

  /** `NEXT_STEPS` and `nextStep`: the hint about what happens next for each status. */
  function NextStep(s: PackageStatus): (r: string)
    ensures r != ""
  {
    match s
    case ReceivedChina => "Préparation en cours"
    case InTransit => "Prochaine: arrivée en Afrique"
    case ArrivedAfrica => "Prochaine: disponible à l'entrepôt"
    case AvailableWarehouse => "Prochaine: retrait"
    case PickedUp => "Fin: colis récupéré"
  }

  /** No two statuses share a label or a hint. */
  lemma TablesAreInjective(s: PackageStatus, t: PackageStatus)
    ensures StatusLabel(s) == StatusLabel(t) ==> s == t
    ensures NextStep(s) == NextStep(t) ==> s == t
  {
  }

  /** A `Date` seen through its local getters: `getFullYear`, `getMonth` (zero-based),
      `getDate`, `getHours`, `getMinutes`. */
  datatype LocalDateTime = LocalDateTime(year: int, month0: nat, day: nat, hour: nat, minute: nat) {
    /** The ranges those getters return. */
    predicate Valid() {
      month0 < 12 && 1 <= day <= 31 && hour < 24 && minute < 60
    }
  }

  /** `String(n).padStart(2, "0")`. */
  function TwoDigitField(n: nat): string {
    PadStart2(NatToString(n))
  }

  /** `formatDateFR`: `DD/MM/YYYY HH:MM`. For a valid date each of day, month, hour and
      minute is two digits that read back as the field (the month as zero-based month + 1),
      and the year is `String(year)` between the second slash and the space. */
  function FormatDateFR(d: LocalDateTime): (r: string)
    ensures d.Valid() ==>
      var k := |IntToString(d.year)|;
      && |r| == 12 + k
      && r[2] == '/' && r[5] == '/' && r[6 + k] == ' ' && r[9 + k] == ':'
      && r[6..6 + k] == IntToString(d.year)
      && AllDigits(r[0..2]) && DigitsValue(r[0..2]) == d.day
      && AllDigits(r[3..5]) && DigitsValue(r[3..5]) == d.month0 + 1
      && AllDigits(r[7 + k..9 + k]) && DigitsValue(r[7 + k..9 + k]) == d.hour
      && AllDigits(r[10 + k..]) && DigitsValue(r[10 + k..]) == d.minute
  {
    var dd := TwoDigitField(d.day);
    var mm := TwoDigitField(d.month0 + 1);
    var yyyy := IntToString(d.year);
    var hh := TwoDigitField(d.hour);
    var min := TwoDigitField(d.minute);
    var r := dd + "/" + mm + "/" + yyyy + " " + hh + ":" + min;
    if d.Valid() then
      TwoDigits(d.day);
      TwoDigits(d.month0 + 1);
      TwoDigits(d.hour);
      TwoDigits(d.minute);
      DateShape(dd, mm, yyyy, hh, min);
      r
    else r
  }

  /** Where the fields of `DD/MM/YYYY HH:MM` sit when the four padded fields are two long. */
  lemma DateShape(dd: string, mm: string, yyyy: string, hh: string, min: string)
    requires |dd| == 2 && |mm| == 2 && |hh| == 2 && |min| == 2
    ensures var r := dd + "/" + mm + "/" + yyyy + " " + hh + ":" + min;
      var k := |yyyy|;
      && |r| == 12 + k
      && r[2] == '/' && r[5] == '/' && r[6 + k] == ' ' && r[9 + k] == ':'
      && r[6..6 + k] == yyyy
      && r[0..2] == dd && r[3..5] == mm && r[7 + k..9 + k] == hh && r[10 + k..] == min
  {
    var date := dd + "/" + mm + "/";
    var time := " " + hh + ":" + min;
    var r := dd + "/" + mm + "/" + yyyy + " " + hh + ":" + min;
    var k := |yyyy|;
    assert r == date + yyyy + time;
    assert r[..6] == date;
    assert r[6..6 + k] == yyyy;
    assert r[6 + k..] == time;
  }

  /** The separator between segments. */
  const Separator: string := " • "

  /** The hard cap on a notification's length and the marker a cut text ends with. */
  const MaxLength: nat := 160
  const Ellipsis: string := "..."

  /** The cap: a text longer than 160 keeps its first 157 characters and gets "...". */
  function Truncate(msg: string): (r: string)
    ensures |r| <= MaxLength
    ensures |msg| <= MaxLength ==> r == msg
    ensures |msg| > MaxLength ==> |r| == MaxLength && r[..157] == msg[..157] && r[157..] == Ellipsis
  {
    if |msg| > MaxLength then msg[..157] + Ellipsis else msg
  }

  /** `s` without a trailing "...", if it has one. */
  function DropEllipsis(s: string): string {
    if |s| >= 3 && s[|s| - 3..] == Ellipsis then s[..|s| - 3] else s
  }

  /** Whatever is cut, the result minus a trailing "..." is a prefix of the assembled text. */
  lemma TruncateKeepsPrefix(msg: string)
    ensures var p := DropEllipsis(Truncate(msg)); |p| <= |msg| && msg[..|p|] == p
  {
  }

  /** Text that ends within the first 157 characters survives the cap. */
  lemma TruncateKeepsEarlyText(msg: string, a: string, t: string, b: string)
    requires msg == a + t + b && |a| + |t| <= 157
    ensures Contains(Truncate(msg), t)
  {
    var r := Truncate(msg);
    var n := |a| + |t|;
    assert r[..n] == msg[..n] == a + t;
    ContainsMiddle(r[..n], a, t, []);
    ContainsInPrefix(r, n, t);
  }

  /** The first segment of a status notification. */
  function StatusHeader(trackingNumber: string, status: PackageStatus): string {
    "Statut de votre colis (numéro de suivi: " + trackingNumber + "): " + StatusLabel(status)
  }

  /** `opts?.location && opts.location.trim().length > 0`. */
  predicate HasLocation(location: Option<string>) {
    location.Some? && |Trim(location.value)| > 0
  }

  /** The segments of a status notification, in order: header, timestamp, the optional
      `Lieu:` with the trimmed location, and the next-step hint. */
  function StatusSegments(trackingNumber: string, status: PackageStatus, location: Option<string>, when: string): (parts: seq<string>)
    ensures |parts| == if HasLocation(location) then 4 else 3
    ensures parts[0] == StatusHeader(trackingNumber, status) && parts[1] == when
    ensures HasLocation(location) ==> parts[2] == "Lieu: " + Trim(location.value)
    ensures parts[|parts| - 1] == NextStep(status)
  {
    var parts := [StatusHeader(trackingNumber, status), when];
    var parts := if HasLocation(location) then parts + ["Lieu: " + Trim(location.value)] else parts;
    if NextStep(status) != "" then parts + [NextStep(status)] else parts
  }

  /** The timestamp a status notification renders: `updatedAt` when supplied, else now. */
  function StatusTime(updatedAt: Option<LocalDateTime>, now: LocalDateTime): LocalDateTime {
    if updatedAt.Some? then updatedAt.value else now
  }

  /** The joined segments before the cap, for the rendered timestamp `when`. */
  function AssembledStatus(trackingNumber: string, status: PackageStatus, location: Option<string>, when: string): string {
    Join(StatusSegments(trackingNumber, status, location, when), Separator)
  }

  /** `formatStatusNotification`: at most 160 characters; the assembled text itself when
      that fits, else its first 157 characters and "...". The timestamp is `updatedAt`
      when supplied, else the clock. */
  function FormatStatusNotification(trackingNumber: string, status: PackageStatus, location: Option<string>,
                                    updatedAt: Option<LocalDateTime>, now: LocalDateTime): (r: string)
    ensures |r| <= MaxLength
    ensures var m := AssembledStatus(trackingNumber, status, location, FormatDateFR(StatusTime(updatedAt, now)));
      (|m| <= MaxLength ==> r == m) && (|m| > MaxLength ==> |r| == MaxLength && r[..157] == m[..157] && r[157..] == Ellipsis)
  {
    Truncate(AssembledStatus(trackingNumber, status, location, FormatDateFR(StatusTime(updatedAt, now))))
  }

  /** The assembled status text spelled out: header, timestamp, `Lieu:` only when a
      non-blank location is given, then the hint, separated by " • ". */
  lemma StatusLayout(trackingNumber: string, status: PackageStatus, location: Option<string>, when: string)
    ensures AssembledStatus(trackingNumber, status, location, when)
      == StatusHeader(trackingNumber, status) + Separator + when
         + (if HasLocation(location) then Separator + ("Lieu: " + Trim(location.value)) else "")
         + Separator + NextStep(status)
  {
    if HasLocation(location) {
      LayoutWithLocation(trackingNumber, status, location, when);
    } else {
      var parts := StatusSegments(trackingNumber, status, location, when);
      assert parts == [StatusHeader(trackingNumber, status), when, NextStep(status)];
      JoinThree(parts, Separator);
    }
  }

  lemma LayoutWithLocation(trackingNumber: string, status: PackageStatus, location: Option<string>, when: string)
    requires HasLocation(location)
    ensures AssembledStatus(trackingNumber, status, location, when)
      == StatusHeader(trackingNumber, status) + Separator + when + (Separator + ("Lieu: " + Trim(location.value)))
         + Separator + NextStep(status)
  {
    var parts := StatusSegments(trackingNumber, status, location, when);
    assert parts == [StatusHeader(trackingNumber, status), when, "Lieu: " + Trim(location.value), NextStep(status)];
    JoinFourGrouped(parts[0], parts[1], parts[2], parts[3], Separator);
  }

  lemma JoinFourGrouped(a: string, b: string, c: string, d: string, sep: string)
    ensures Join([a, b, c, d], sep) == a + sep + b + (sep + c) + sep + d
  {
    JoinFour([a, b, c, d], sep);
  }

  lemma JoinThree(parts: seq<string>, sep: string)
    requires |parts| == 3
    ensures Join(parts, sep) == parts[0] + sep + parts[1] + sep + parts[2]
  {
    assert parts[1..][1..] == [parts[2]];
  }

  lemma JoinFour(parts: seq<string>, sep: string)
    requires |parts| == 4
    ensures Join(parts, sep) == parts[0] + sep + parts[1] + sep + parts[2] + sep + parts[3]
  {
    JoinThree(parts[1..], sep);
  }

  /** A supplied `updatedAt` is what is rendered: the clock is then irrelevant, and the
      result is the one the clock would give if it read `updatedAt`. */
  lemma UpdatedAtOverridesClock(trackingNumber: string, status: PackageStatus, location: Option<string>,
                                at: LocalDateTime, now: LocalDateTime)
    ensures FormatStatusNotification(trackingNumber, status, location, Some(at), now)
         == FormatStatusNotification(trackingNumber, status, location, None, at)
  {
  }

  /** The header sits at the front, so a short enough header keeps the tracking number
      and the status label in the output even when it is cut. */
  lemma StatusNamesPackage(trackingNumber: string, status: PackageStatus, location: Option<string>,
                           updatedAt: Option<LocalDateTime>, now: LocalDateTime)
    requires |StatusHeader(trackingNumber, status)| <= 157
    ensures var r := FormatStatusNotification(trackingNumber, status, location, updatedAt, now);
      Contains(r, trackingNumber) && Contains(r, StatusLabel(status))
  {
    var when := FormatDateFR(StatusTime(updatedAt, now));
    HeaderSurvives(trackingNumber, status, AssembledStatus(trackingNumber, status, location, when));
  }

  /** Any text that starts with a header of at most 157 characters keeps, once capped,
      the header's tracking number and label. */
  lemma HeaderSurvives(trackingNumber: string, status: PackageStatus, m: string)
    requires |StatusHeader(trackingNumber, status)| <= 157
    requires |StatusHeader(trackingNumber, status)| <= |m| && m[..|StatusHeader(trackingNumber, status)|] == StatusHeader(trackingNumber, status)
    ensures Contains(Truncate(m), trackingNumber) && Contains(Truncate(m), StatusLabel(status))
  {
    var h := StatusHeader(trackingNumber, status);
    var intro := "Statut de votre colis (numéro de suivi: ";
    var rest := m[|h|..];
    assert m == h + rest;
    assert m == intro + trackingNumber + ("): " + StatusLabel(status) + rest);
    TruncateKeepsEarlyText(m, intro, trackingNumber, "): " + StatusLabel(status) + rest);
    assert m == (intro + trackingNumber + "): ") + StatusLabel(status) + rest;
    TruncateKeepsEarlyText(m, intro + trackingNumber + "): ", StatusLabel(status), rest);
  }

  /** The closing segment of a creation text. */
  const Signature: string := "Enregistré par le transitaire"

  /** `formatCreatedNotification`'s text before the cap. */
  function AssembledCreated(trackingNumber: string, when: string): string {
    "Nouveau colis (numéro de suivi: " + trackingNumber + ")" + Separator + when
      + Separator + Signature
  }

  /** `formatCreatedNotification`: at most 160 characters, cut like the status text. */
  function FormatCreatedNotification(trackingNumber: string, now: LocalDateTime): (r: string)
    ensures |r| <= MaxLength
    ensures var m := AssembledCreated(trackingNumber, FormatDateFR(now));
      (|m| <= MaxLength ==> r == m) && (|m| > MaxLength ==> |r| == MaxLength && r[..157] == m[..157] && r[157..] == Ellipsis)
  {
    Truncate(AssembledCreated(trackingNumber, FormatDateFR(now)))
  }

  /** An uncut creation text ends with the forwarder's signature. */
  lemma CreatedEndsWithSignature(trackingNumber: string, now: LocalDateTime)
    requires |AssembledCreated(trackingNumber, FormatDateFR(now))| <= MaxLength
    ensures var r := FormatCreatedNotification(trackingNumber, now);
      var sig := Separator + Signature;
      |r| >= |sig| && r[|r| - |sig|..] == sig
  {
    var front := "Nouveau colis (numéro de suivi: " + trackingNumber + ")" + Separator + FormatDateFR(now);
    assert AssembledCreated(trackingNumber, FormatDateFR(now)) == front + (Separator + Signature);
    EndsWith(front, Separator + Signature);
  }

  lemma EndsWith(a: string, b: string)
    ensures |a + b| >= |b| && (a + b)[|a + b| - |b|..] == b
  {
  }

  /** Who a message comes from: the administration exactly when the role is "admin". */
  function SenderPhrase(senderRole: string): (r: string)
    ensures senderRole == "admin" <==> r == "de l'administration"
    ensures senderRole != "admin" <==> r == "du client"
  {
    if senderRole == "admin" then "de l'administration" else "du client"
  }

  /** `formatMessageNotification`'s text before the cap. */
  function AssembledMessage(trackingNumber: string, senderRole: string, when: string): string {
    "Nouveau message " + SenderPhrase(senderRole) + " concernant le colis (numéro de suivi: "
      + trackingNumber + ")" + Separator + when
  }

  /** `formatMessageNotification`: at most 160 characters, cut like the status text. */
  function FormatMessageNotification(trackingNumber: string, senderRole: string, now: LocalDateTime): (r: string)
    ensures |r| <= MaxLength
    ensures var m := AssembledMessage(trackingNumber, senderRole, FormatDateFR(now));
      (|m| <= MaxLength ==> r == m) && (|m| > MaxLength ==> |r| == MaxLength && r[..157] == m[..157] && r[157..] == Ellipsis)
  {
    Truncate(AssembledMessage(trackingNumber, senderRole, FormatDateFR(now)))
  }

  /** The sender phrase comes early enough to survive any cut. The tracking number
      survives exactly as far as it ends within the 157 kept characters: the text before
      it is 55 characters plus the phrase, so up to 83 characters after the
      administration's phrase and 93 after the client's. */
  lemma MessageNamesSender(trackingNumber: string, senderRole: string, now: LocalDateTime)
    ensures Contains(FormatMessageNotification(trackingNumber, senderRole, now), SenderPhrase(senderRole))
    ensures |trackingNumber| + |SenderPhrase(senderRole)| <= 102 ==>
      Contains(FormatMessageNotification(trackingNumber, senderRole, now), trackingNumber)
  {
    MessageKeepsNames(trackingNumber, SenderPhrase(senderRole), FormatDateFR(now));
  }

  lemma MessageKeepsNames(trackingNumber: string, phrase: string, when: string)
    requires phrase == "de l'administration" || phrase == "du client"
    ensures var m := "Nouveau message " + phrase + " concernant le colis (numéro de suivi: "
      + trackingNumber + ")" + Separator + when;
      Contains(Truncate(m), phrase) && (|trackingNumber| + |phrase| <= 102 ==> Contains(Truncate(m), trackingNumber))
  {
    var lead := "Nouveau message ";
    var mid := " concernant le colis (numéro de suivi: ";
    var tail := ")" + Separator + when;
    var m := lead + phrase + mid + trackingNumber + ")" + Separator + when;
    assert |lead| == 16 && |mid| == 39 && |phrase| <= 19;
    assert m == lead + phrase + (mid + trackingNumber + tail);
    TruncateKeepsEarlyText(m, lead, phrase, mid + trackingNumber + tail);
    if |trackingNumber| + |phrase| <= 102 {
      assert m == (lead + phrase + mid) + trackingNumber + tail;
      TruncateKeepsEarlyText(m, lead + phrase + mid, trackingNumber, tail);
    }
  }
}
