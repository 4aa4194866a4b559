/**
 The evaluation form's submit path: reject an empty facilitator selection,
 otherwise join the selected names with `", "`, build the 18-cell row
 (timestamp, participant data, facilitators, workshop date, ten ratings,
 two comments) and append exactly that row to the sheet.
 */
module Form {
  import opened Text
  import opened Digits
  import opened Frames
  import opened Survey
  import opened Outcomes

  datatype Date = Date(year: nat, month: nat, day: nat)

  /** The ranges Python's `date` enforces (day-of-month bounds aside). */
  predicate ValidDate(d: Date) {
    1 <= d.year <= 9999 && 1 <= d.month <= 12 && 1 <= d.day <= 31
  }

  /** A clock reading: `datetime.now()` is passed in rather than read. */
  datatype DateTime = DateTime(date: Date, hour: nat, minute: nat, second: nat)

  predicate ValidDateTime(t: DateTime) {
    ValidDate(t.date) && t.hour < 24 && t.minute < 60 && t.second < 60
  }

  /** `str(date)`: `YYYY-MM-DD`, each field zero-padded. */
  function IsoDate(d: Date): (s: string)
    ensures |s| == 10 && s[4] == '-' && s[7] == '-'
    ensures AllDigits(s[..4]) && AllDigits(s[5..7]) && AllDigits(s[8..])
  {
    var s := Padded(d.year, 4) + "-" + Padded(d.month, 2) + "-" + Padded(d.day, 2);
    assert s[..4] == Padded(d.year, 4) && s[5..7] == Padded(d.month, 2) && s[8..] == Padded(d.day, 2);
    s
  }

  /** The workshop-date cell loses nothing: each field of a valid date is
      read back from its zero-padded digits. */
  lemma IsoDateRoundTrip(d: Date)
    requires ValidDate(d)
    ensures ParseDigits(IsoDate(d)[..4]) == d.year
    ensures ParseDigits(IsoDate(d)[5..7]) == d.month
    ensures ParseDigits(IsoDate(d)[8..]) == d.day
  {
    var s := IsoDate(d);
    assert Pow10(2) == 100 && Pow10(4) == 10000;
    assert s[..4] == Padded(d.year, 4);
    assert s[5..7] == Padded(d.month, 2);
    assert s[8..] == Padded(d.day, 2);
    PaddedRoundTrip(d.year, 4);
    PaddedRoundTrip(d.month, 2);
    PaddedRoundTrip(d.day, 2);
  }

  /** The shape of a `%Y-%m-%d %H:%M:%S` stamp: 19 characters, separators at
      positions 4, 7, 10, 13 and 16, and digits everywhere else. */
  predicate StampShape(s: string) {
    && |s| == 19
    && s[4] == '-' && s[7] == '-' && s[10] == ' ' && s[13] == ':' && s[16] == ':'
    && AllDigits(s[..4]) && AllDigits(s[5..7]) && AllDigits(s[8..10])
    && AllDigits(s[11..13]) && AllDigits(s[14..16]) && AllDigits(s[17..])
  }

  /** `now.strftime("%Y-%m-%d %H:%M:%S")`. */
  function Timestamp(t: DateTime): (s: string)
    ensures StampShape(s)
  {
    var date := IsoDate(t.date);
    var s := date + " " + Padded(t.hour, 2) + ":" + Padded(t.minute, 2) + ":" + Padded(t.second, 2);
    assert s[..10] == date;
    assert s[..4] == date[..4] && s[5..7] == date[5..7] && s[8..10] == date[8..];
    assert s[11..13] == Padded(t.hour, 2) && s[14..16] == Padded(t.minute, 2) && s[17..] == Padded(t.second, 2);
    s
  }

  /** Reads the clock reading back out of a stamp. */
  function ParseStamp(s: string): DateTime
    requires StampShape(s)
  {
    DateTime(Date(ParseDigits(s[..4]), ParseDigits(s[5..7]), ParseDigits(s[8..10])),
             ParseDigits(s[11..13]), ParseDigits(s[14..16]), ParseDigits(s[17..]))
  }

  /** The stamp is zero-padded at fixed width, so it loses nothing: every
      valid clock reading is read back exactly. */
  lemma TimestampRoundTrip(t: DateTime)
    requires ValidDateTime(t)
    ensures ParseStamp(Timestamp(t)) == t
  {
    var s := Timestamp(t);
    var d := t.date;
    assert Pow10(2) == 100 && Pow10(4) == 10000;
    assert s[..4] == Padded(d.year, 4);
    assert s[5..7] == Padded(d.month, 2);
    assert s[8..10] == Padded(d.day, 2);
    assert s[11..13] == Padded(t.hour, 2);
    assert s[14..16] == Padded(t.minute, 2);
    assert s[17..] == Padded(t.second, 2);
    PaddedRoundTrip(d.year, 4);
    PaddedRoundTrip(d.month, 2);
    PaddedRoundTrip(d.day, 2);
    PaddedRoundTrip(t.hour, 2);
    PaddedRoundTrip(t.minute, 2);
    PaddedRoundTrip(t.second, 2);
  }

  /** What the participant filled in. */
  datatype Submission = Submission(
    participant: string,
    position: string,
    delegation: string,
    facilitators: seq<string>,  // the multiselect, in selection order
    workshop: Date,
    ratings: seq<Rating>,       // p1 .. p10
    positives: string,
    suggestions: string)

  /** The form has exactly one radio per question and a valid date picker. */
  predicate WellFormedSubmission(s: Submission) {
    |s.ratings| == |Questions| && ValidDate(s.workshop)
  }

  const RatingsStart: nat := 6

  /** The row appended to the sheet, cell by cell. */
  function EncodeRow(s: Submission, now: DateTime): (row: Row)
    requires WellFormedSubmission(s)
    ensures |row| == 18
    ensures row[0] == Timestamp(now)
    ensures row[1] == s.participant && row[2] == s.position && row[3] == s.delegation
    ensures row[4] == Join(s.facilitators)
    ensures row[5] == IsoDate(s.workshop)
    ensures forall i :: 0 <= i < |Questions| ==> row[RatingsStart + i] == Label(s.ratings[i])
    ensures row[16] == s.positives && row[17] == s.suggestions
  {
    [Timestamp(now), s.participant, s.position, s.delegation, Join(s.facilitators), IsoDate(s.workshop)]
    + seq(|Questions|, i requires 0 <= i < |Questions| => Label(s.ratings[i]))
    + [s.positives, s.suggestions]
  }

  /** A row whose ten rating cells are all answer categories. */
  predicate RatedRow(row: Row) {
    |row| == 18 && forall i :: RatingsStart <= i < RatingsStart + |Questions| ==> row[i] in Categories
  }

  /** Every row the form writes is rated: a radio cannot be left without one
      of the five answers. */
  lemma EncodeRowRated(s: Submission, now: DateTime)
    requires WellFormedSubmission(s)
    ensures RatedRow(EncodeRow(s, now))
  {
  }

  /** No roster name holds a comma or starts or ends with whitespace. */
  lemma RosterPlain()
    ensures forall n <- Roster :: PlainName(n)
  {
    forall i | 0 <= i < |Roster| ensures PlainName(Roster[i]) {
      RosterNamePlain(i);
    }
  }

  lemma RosterNamePlain(i: nat)
    requires i < |Roster|
    ensures PlainName(Roster[i])
  {
    if i == 0 { assert PlainName(Roster[0]); }
    else if i == 1 { assert PlainName(Roster[1]); }
    else if i == 2 { assert PlainName(Roster[2]); }
    else if i == 3 { assert PlainName(Roster[3]); }
    else if i == 4 { assert PlainName(Roster[4]); }
    else if i == 5 { assert PlainName(Roster[5]); }
    else { assert PlainName(Roster[6]); }
  }

  lemma PlainFromRoster(n: string)
    requires n in Roster
    ensures PlainName(n)
  {
    RosterPlain();
  }

  /** Formulario.py lines 45-51 and 78 with Dashboard.py lines 23-25: any non-empty
      selection from the roster is read back by the dashboard exactly, in
      selection order. */
  lemma RosterRoundTrip(selection: seq<string>)
    requires |selection| >= 1
    requires forall n <- selection :: n in Roster
    ensures Names(Join(selection)) == selection
  {
    forall i | 0 <= i < |selection| ensures PlainName(selection[i]) {
      PlainFromRoster(selection[i]);
    }
    NamesJoin(selection);
  }

  /** A sheet header laid out as the form writes its rows: after stripping,
      the facilitator column is the fifth and the ten questions follow the
      workshop date, each name first found at that position. */
  predicate FormHeader(header: seq<string>) {
    && |header| == 18
    && ColumnIndex(StripAll(header), FacilitatorColumn) == Some(4)
    && forall i :: 0 <= i < |Questions| ==> ColumnIndex(StripAll(header), Questions[i]) == Some(RatingsStart + i)
  }

  const RejectionMessage: string :=
    "⚠️ Debes seleccionar al menos un facilitador antes de enviar el formulario."
  const SuccessMessage: string := "✅ ¡Evaluación enviada correctamente!"

  datatype Outcome = Rejected(message: string) | Accepted(row: Row, message: string)

  /** The submit button: the data rows of the sheet before and after. An empty
      selection is refused and nothing is written; otherwise exactly one row
      is appended after all the existing ones. */
  method Submit(sheet: seq<Row>, s: Submission, now: DateTime) returns (outcome: Outcome, after: seq<Row>)
    requires WellFormedSubmission(s)
    ensures outcome.Rejected? <==> |s.facilitators| == 0
    ensures outcome.Rejected? ==> outcome.message == RejectionMessage && after == sheet
    ensures outcome.Accepted? ==> outcome.message == SuccessMessage
    ensures outcome.Accepted? ==> |after| == |sheet| + 1 && after[..|sheet|] == sheet
    ensures outcome.Accepted? ==> after[|sheet|] == outcome.row == EncodeRow(s, now)
  {
    if |s.facilitators| == 0 {
      outcome := Rejected(RejectionMessage);
      after := sheet;
    } else {
      var row := EncodeRow(s, now);
      after := sheet + [row];
      outcome := Accepted(row, SuccessMessage);
    }
  }
}
