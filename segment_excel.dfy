/** The script that turns spreadsheet rows into Segment "track" calls: field
    normalisation, the required-column check, the per-row payload and the
    dispatch loop that posts one payload per row, in row order.

    What lies outside the script is a parameter (`Externals`): Python's
    `str()` of a cell, the SHA-256 hex digest, the timestamp conversion done
    by pandas, and the HTTP status the service answers to each POST. */
module SegmentExcel {
  import opened Seqs
  import opened PyStr

  /** The fixed event name of every track call. */
  const EventName: string := "Checked In"

  /** The columns the sheet must have, in the order they are reported. */
  const Required: seq<string> :=
    ["email", "phone", "club_name", "club_location", "membership_level", "timestamp"]

  /** The keys of `context.traits`. */
  const TraitKeys: set<string> := {"email", "hashed_email", "phone", "hashed_phone"}

  /** The keys of `properties`: the club columns. */
  const ClubKeys: set<string> := {"club_name", "club_location", "membership_level"}

  datatype Option<T> = None | Some(value: T)

  /** A row maps column names to cell values of type `V`. */
  type Row<V> = map<string, V>

  /** A loaded sheet: the header's column names and the rows in sheet order. */
  datatype Sheet<V> = Sheet(columns: seq<string>, rows: seq<Row<V>>)
  {
    /** As in a data frame, every row has a cell for every column. */
    predicate Rectangular()
    {
      forall i :: 0 <= i < |rows| ==> forall c :: c in columns ==> c in rows[i]
    }
  }

  /** The code the script calls but that is not part of it. */
  datatype Externals<-V> = Externals(
    toStr: V -> string,               // Python's str() of a cell value
    hash: string -> string,           // SHA-256 of the UTF-8 bytes, as hex
    toIso: V -> Option<string>,       // UTC ISO-8601 with a Z suffix; None when unparseable
    respond: nat -> int)              // HTTP status answered to the n-th POST of the run

  datatype Context = Context(traits: map<string, string>)

  /** The JSON body of one POST to /v1/track. */
  datatype Payload<V> = Payload(
    userId: string,
    event: string,
    properties: map<string, V>,
    context: Context,
    timestamp: string)

  /** How a run ends. `MissingColumns` is the KeyError raised before any row is
      read, with the missing names and the error's text, `BadTimestamp` the ValueError of an unparseable timestamp, and
      `HttpError` the error `raise_for_status` raises on a 4xx or 5xx answer. */
  datatype Outcome =
    | Completed
    | MissingColumns(missing: seq<string>, message: string)
    | BadTimestamp(row: nat)
    | HttpError(row: nat, status: int)

  /** The POST bodies issued by a run, in order, and how the run ended. */
  datatype Run<V> = Run(posted: seq<Payload<V>>, outcome: Outcome)

  // Field normalisers

  /** `clean_email`: strip surrounding whitespace, then lower-case. */
  function CleanEmail(email: string): string
  {
    LowerStr(Strip(email))
  }

  /** `clean_phone`: keep the digits, in their original order. */
  function CleanPhone(phone: string): string
  {
    Filter(IsDigit, phone)
  }

  /** The cleaned email is lower-case, has no whitespace at either end, and is
      the lower-cased slice of the input left after removing the maximal
      whitespace prefix and suffix. */
  lemma CleanEmailShape(email: string) returns (i: nat, j: nat)
    ensures NoEdgeSpace(CleanEmail(email))
    ensures forall k :: 0 <= k < |CleanEmail(email)| ==> !IsUpper(CleanEmail(email)[k])
    ensures i <= j <= |email| && CleanEmail(email) == LowerStr(email[i..j])
    ensures AllSpace(email[..i]) && AllSpace(email[j..]) && NoEdgeSpace(email[i..j])
  {
    i, j := StripSlice(email);
    LowerStrNoEdgeSpace(email[i..j]);
    LowerStrNoUpper(email[i..j]);
  }

  /** Cleaning an already cleaned email returns it unchanged. */
  lemma CleanEmailIdempotent(email: string)
    ensures CleanEmail(CleanEmail(email)) == CleanEmail(email)
  {
    var i, j := CleanEmailShape(email);
    StripFixed(CleanEmail(email));
    LowerStrIdempotent(Strip(email));
  }

  lemma CleanEmailExample()
    ensures CleanEmail(" Test@Example.COM ") == "test@example.com"
  {
    var s := " Test@Example.COM ";
    assert TrimStart(s) == s[1..];
    assert TrimEnd(s[1..]) == s[1..|s| - 1];
  }

  /** The cleaned phone holds digits only; it is the input with every
      non-digit removed: `idx` lists, in increasing order, exactly the
      positions of the input's digits, and the output is those characters. */
  lemma CleanPhoneDigits(phone: string) returns (idx: seq<nat>)
    ensures forall k :: 0 <= k < |CleanPhone(phone)| ==> IsDigit(CleanPhone(phone)[k])
    ensures IsEmbedding(CleanPhone(phone), phone, idx)
    ensures forall i :: 0 <= i < |phone| ==> (i in idx <==> IsDigit(phone[i]))
  {
    idx := FilterEmbedding(IsDigit, phone);
  }

  /** Cleaning a cleaned phone number changes nothing, and a string is left
      unchanged by cleaning exactly when it is all digits. */
  lemma CleanPhoneIdempotent(phone: string)
    ensures CleanPhone(CleanPhone(phone)) == CleanPhone(phone)
    ensures CleanPhone(phone) == phone <==> forall i :: 0 <= i < |phone| ==> IsDigit(phone[i])
  {
    FilterIdempotent(IsDigit, phone);
    FilterIdentity(IsDigit, phone);
  }

  // Required columns

  /** The required column names absent from the header, in required order. */
  function Missing(columns: seq<string>): seq<string>
  {
    Filter(c => c !in columns, Required)
  }

  /** The missing list holds exactly the required names the header lacks, in
      the order of the required list: `idx` lists, in increasing order, the
      positions in the required list of the names the header lacks. */
  lemma MissingExactly(columns: seq<string>) returns (idx: seq<nat>)
    ensures IsEmbedding(Missing(columns), Required, idx)
    ensures forall i :: 0 <= i < |Required| ==> (i in idx <==> Required[i] !in columns)
    ensures forall k :: 0 <= k < |Missing(columns)| ==> Missing(columns)[k] !in columns
  {
    idx := FilterEmbedding(c => c !in columns, Required);
  }

  /** A name is in the missing list exactly when it is required and absent
      from the header. */
  lemma MissingMembers(columns: seq<string>, c: string)
    ensures c in Missing(columns) <==> c in Required && c !in columns
  {
    FilterMembers(c => c !in columns, Required, c);
  }

  /** The list is empty exactly when the header has every required column. */
  lemma MissingEmpty(columns: seq<string>)
    ensures Missing(columns) == [] <==> forall k :: 0 <= k < |Required| ==> Required[k] in columns
  {
  }

  /** The text of the KeyError raised when columns are missing. */
  function MissingMessage(missing: seq<string>): string
  {
    "Missing required columns: " + Join(missing, ", ")
  }

  /** The message names every missing column. */
  lemma MissingMessageNames(missing: seq<string>, k: nat) returns (at: nat)
    requires k < |missing|
    ensures at + |missing[k]| <= |MissingMessage(missing)|
    ensures MissingMessage(missing)[at..at + |missing[k]|] == missing[k]
  {
    var prefix := "Missing required columns: ";
    var inner := JoinContains(missing, ", ", k);
    at := |prefix| + inner;
    assert MissingMessage(missing)[at..at + |missing[k]|] == Join(missing, ", ")[inner..inner + |missing[k]|];
  }

  // One row

  /** A row of a sheet that passed the column check. */
  predicate HasRequired<V>(row: Row<V>)
  {
    "email" in row && "phone" in row && "club_name" in row && "club_location" in row &&
    "membership_level" in row && "timestamp" in row
  }

  predicate AllHaveRequired<V>(rows: seq<Row<V>>)
  {
    forall i :: 0 <= i < |rows| ==> HasRequired(rows[i])
  }

  /** The identity traits: raw and hashed cleaned email and phone. */
  function Traits<V>(ext: Externals<V>, row: Row<V>): map<string, string>
    requires HasRequired(row)
  {
    var email := CleanEmail(ext.toStr(row["email"]));
    var phone := CleanPhone(ext.toStr(row["phone"]));
    map["email" := email, "hashed_email" := ext.hash(email),
        "phone" := phone, "hashed_phone" := ext.hash(phone)]
  }

  /** The club columns, copied unchanged. */
  function Properties<V>(row: Row<V>): map<string, V>
    requires HasRequired(row)
  {
    map["club_name" := row["club_name"], "club_location" := row["club_location"],
        "membership_level" := row["membership_level"]]
  }

  /** The body `send_track` posts. */
  function TrackPayload<V>(userId: string, traits: map<string, string>, properties: map<string, V>, timestamp: string): Payload<V>
  {
    Payload(userId, EventName, properties, Context(traits), timestamp)
  }

  /** The payload posted for `row`, once its timestamp has been converted to `ts`. */
  function RowPayload<V>(ext: Externals<V>, row: Row<V>, ts: string): Payload<V>
    requires HasRequired(row)
  {
    var traits := Traits(ext, row);
    TrackPayload(traits["hashed_email"], traits, Properties(row), ts)
  }

  /** The payload of a row, built step by step as the loop body builds it. */
  lemma RowPayloadSteps<V>(ext: Externals<V>, row: Row<V>, ts: string)
    requires HasRequired(row)
    ensures var email := CleanEmail(ext.toStr(row["email"]));
      var phone := CleanPhone(ext.toStr(row["phone"]));
      var traits := map["email" := email, "hashed_email" := ext.hash(email),
                        "phone" := phone, "hashed_phone" := ext.hash(phone)];
      RowPayload(ext, row, ts) == TrackPayload(ext.hash(email), traits, Properties(row), ts)
  {
  }

  /** What every payload looks like: the fixed event; traits with exactly the
      four identity keys, the hashes being those of the cleaned values; the
      user id equal to the hashed email; properties with exactly the three
      club columns copied from the row; the converted timestamp. */
  ghost predicate WellShaped<V>(ext: Externals<V>, row: Row<V>, p: Payload<V>)
    requires HasRequired(row)
  {
    var email := CleanEmail(ext.toStr(row["email"]));
    var phone := CleanPhone(ext.toStr(row["phone"]));
    var traits := p.context.traits;
    p.event == EventName &&
    traits.Keys == TraitKeys &&
    traits["email"] == email && traits["hashed_email"] == ext.hash(email) &&
    traits["phone"] == phone && traits["hashed_phone"] == ext.hash(phone) &&
    p.userId == traits["hashed_email"] &&
    p.properties.Keys == ClubKeys &&
    (forall c :: c in p.properties ==> p.properties[c] == row[c]) &&
    ext.toIso(row["timestamp"]) == Some(p.timestamp)
  }

  lemma RowPayloadShape<V>(ext: Externals<V>, row: Row<V>, ts: string)
    requires HasRequired(row) && ext.toIso(row["timestamp"]) == Some(ts)
    ensures WellShaped(ext, row, RowPayload(ext, row, ts))
    ensures "email" !in RowPayload(ext, row, ts).properties
    ensures "phone" !in RowPayload(ext, row, ts).properties
    ensures "timestamp" !in RowPayload(ext, row, ts).properties
  {
  }

  /** Row `b`, whose email cell reads as the cleaned form of row `a`'s email,
      is sent under the same user id as `a`. */
  lemma CleanedEmailSameUser<V>(ext: Externals<V>, a: Row<V>, b: Row<V>, ts: string)
    requires HasRequired(a) && HasRequired(b)
    requires ext.toStr(b["email"]) == CleanEmail(ext.toStr(a["email"]))
    ensures RowPayload(ext, a, ts).userId == RowPayload(ext, b, ts).userId
  {
    CleanEmailIdempotent(ext.toStr(a["email"]));
  }

  // The whole run

  /** `raise_for_status` raises for client (4xx) and server (5xx) errors. */
  predicate IsHttpError(status: int)
  {
    400 <= status < 600
  }

  /** The row's timestamp converts; otherwise the conversion raises. */
  predicate Parses<V>(ext: Externals<V>, row: Row<V>)
    requires HasRequired(row)
  {
    ext.toIso(row["timestamp"]).Some?
  }

  /** Row `j` is processed without error: its timestamp converts and its POST
      is accepted. */
  predicate RowGoesThrough<V>(ext: Externals<V>, rows: seq<Row<V>>, j: nat)
    requires j < |rows| && HasRequired(rows[j])
  {
    Parses(ext, rows[j]) && !IsHttpError(ext.respond(j))
  }

  /** How the rows from row `i` on end: at the first row whose timestamp
      does not convert (before its POST) or whose POST is answered with an
      error (after it), or, when every row goes through, complete. */
  function Progress<V>(ext: Externals<V>, rows: seq<Row<V>>, i: nat): Outcome
    requires i <= |rows| && AllHaveRequired(rows)
    decreases |rows| - i
  {
    if i == |rows| then Completed
    else if !Parses(ext, rows[i]) then BadTimestamp(i)
    else if IsHttpError(ext.respond(i)) then HttpError(i, ext.respond(i))
    else Progress(ext, rows, i + 1)
  }

  /** How many POSTs a run that ends with `outcome` has issued. */
  function PostedCount(outcome: Outcome, total: nat): nat
  {
    match outcome
    case Completed => total
    case MissingColumns(_, _) => 0
    case BadTimestamp(k) => k
    case HttpError(k, _) => k + 1
  }

  /** The payload posted for a row whose timestamp converts. */
  function PostedPayload<V>(ext: Externals<V>, row: Row<V>): Payload<V>
    requires HasRequired(row) && Parses(ext, row)
  {
    RowPayload(ext, row, ext.toIso(row["timestamp"]).value)
  }

  /** The payloads of the first `n` rows, in row order. */
  function Payloads<V>(ext: Externals<V>, rows: seq<Row<V>>, n: nat): seq<Payload<V>>
    requires n <= |rows| && AllHaveRequired(rows)
    requires forall k :: 0 <= k < n ==> Parses(ext, rows[k])
  {
    seq(n, k requires 0 <= k < n => PostedPayload(ext, rows[k]))
  }

  /** One more row posted is one more payload at the end. */
  lemma PayloadsSnoc<V>(ext: Externals<V>, rows: seq<Row<V>>, n: nat)
    requires n < |rows| && AllHaveRequired(rows)
    requires forall k :: 0 <= k <= n ==> Parses(ext, rows[k])
    ensures Payloads(ext, rows, n + 1) == Payloads(ext, rows, n) + [PostedPayload(ext, rows[n])]
  {
  }

  /** `process_excel` on a loaded sheet: the column check, then one POST per
      row, in row order, up to where the run ends. */
  function ProcessRun<V>(ext: Externals<V>, sheet: Sheet<V>): Run<V>
    requires sheet.Rectangular()
  {
    var missing := Missing(sheet.columns);
    if missing != [] then Run([], MissingColumns(missing, MissingMessage(missing)))
    else
      ColumnsCheckedRowsComplete(sheet);
      var outcome := Progress(ext, sheet.rows, 0);
      ProgressStops(ext, sheet.rows, 0);
      Run(Payloads(ext, sheet.rows, PostedCount(outcome, |sheet.rows|)), outcome)
  }

  /** Once the header has every required column, so does every row. */
  lemma ColumnsCheckedRowsComplete<V>(sheet: Sheet<V>)
    requires sheet.Rectangular() && Missing(sheet.columns) == []
    ensures AllHaveRequired(sheet.rows)
  {
    MissingEmpty(sheet.columns);
  }

  /** The rows from `i` on complete exactly when every one of them goes
      through. */
  lemma {:induction false} ProgressCompletes<V>(ext: Externals<V>, rows: seq<Row<V>>, i: nat)
    requires i <= |rows| && AllHaveRequired(rows)
    ensures Progress(ext, rows, i).Completed? <==> forall j :: i <= j < |rows| ==> RowGoesThrough(ext, rows, j)
    decreases |rows| - i
  {
    if i < |rows| {
      ProgressCompletes(ext, rows, i + 1);
      if !RowGoesThrough(ext, rows, i) {
        assert !Progress(ext, rows, i).Completed?;
      }
    }
  }

  /** A run that does not complete stops at the first row that does not go
      through: every row before it went through, and it is the row whose
      timestamp did not convert or whose POST was answered with an error.
      In every case the rows that were posted all had a timestamp that
      converted, and a missing column never arises here. */
  lemma {:induction false} ProgressStops<V>(ext: Externals<V>, rows: seq<Row<V>>, i: nat)
    requires i <= |rows| && AllHaveRequired(rows)
    ensures var o := Progress(ext, rows, i);
      !o.MissingColumns? &&
      (o.BadTimestamp? ==>
         i <= o.row < |rows| && !Parses(ext, rows[o.row]) &&
         forall j :: i <= j < o.row ==> RowGoesThrough(ext, rows, j)) &&
      (o.HttpError? ==>
         i <= o.row < |rows| && Parses(ext, rows[o.row]) &&
         o.status == ext.respond(o.row) && IsHttpError(o.status) &&
         forall j :: i <= j < o.row ==> RowGoesThrough(ext, rows, j))
    ensures i <= PostedCount(Progress(ext, rows, i), |rows|) <= |rows|
    ensures forall j :: i <= j < PostedCount(Progress(ext, rows, i), |rows|) ==> Parses(ext, rows[j])
    decreases |rows| - i
  {
    if i < |rows| && Parses(ext, rows[i]) && !IsHttpError(ext.respond(i)) {
      ProgressStops(ext, rows, i + 1);
    }
  }

  /** Every payload a run posts is well shaped for the row at its position. */
  lemma PostedWellShaped<V>(ext: Externals<V>, sheet: Sheet<V>)
    requires sheet.Rectangular()
    ensures var r := ProcessRun(ext, sheet);
      |r.posted| <= |sheet.rows| &&
      forall k :: 0 <= k < |r.posted| ==> HasRequired(sheet.rows[k]) && WellShaped(ext, sheet.rows[k], r.posted[k])
  {
    if Missing(sheet.columns) == [] {
      ColumnsCheckedRowsComplete(sheet);
      ProgressStops(ext, sheet.rows, 0);
      var r := ProcessRun(ext, sheet);
      forall k | 0 <= k < |r.posted| ensures WellShaped(ext, sheet.rows[k], r.posted[k]) {
        assert Parses(ext, sheet.rows[k]);
        RowPayloadShape(ext, sheet.rows[k], ext.toIso(sheet.rows[k]["timestamp"]).value);
      }
    }
  }

  /** The run as a whole. A missing column fails the run before any POST,
      naming exactly the missing columns. Otherwise the run completes exactly
      when every row goes through, and then it has posted one payload per
      row; a bad timestamp at row k leaves rows 0..k-1 posted; an HTTP error
      at row k leaves rows 0..k posted; every row before the stop went
      through and no row after it is posted. */
  lemma ProcessRunSpec<V>(ext: Externals<V>, sheet: Sheet<V>)
    requires sheet.Rectangular()
    ensures var r := ProcessRun(ext, sheet);
      (r.outcome.MissingColumns? <==> Missing(sheet.columns) != []) &&
      (r.outcome.MissingColumns? ==>
         r.posted == [] && r.outcome.missing == Missing(sheet.columns) &&
         r.outcome.message == MissingMessage(Missing(sheet.columns))) &&
      (!r.outcome.MissingColumns? ==> AllHaveRequired(sheet.rows)) &&
      (r.outcome.Completed? <==>
         !r.outcome.MissingColumns? && forall j :: 0 <= j < |sheet.rows| ==> RowGoesThrough(ext, sheet.rows, j)) &&
      (r.outcome.Completed? ==> |r.posted| == |sheet.rows|) &&
      (r.outcome.BadTimestamp? ==>
         r.outcome.row < |sheet.rows| && |r.posted| == r.outcome.row &&
         !Parses(ext, sheet.rows[r.outcome.row]) &&
         forall j :: 0 <= j < r.outcome.row ==> RowGoesThrough(ext, sheet.rows, j)) &&
      (r.outcome.HttpError? ==>
         r.outcome.row < |sheet.rows| && |r.posted| == r.outcome.row + 1 &&
         r.outcome.status == ext.respond(r.outcome.row) && IsHttpError(r.outcome.status) &&
         forall j :: 0 <= j < r.outcome.row ==> RowGoesThrough(ext, sheet.rows, j)) &&
      (forall k :: 0 <= k < |r.posted| ==> r.posted[k].event == EventName)
  {
    if Missing(sheet.columns) == [] {
      ColumnsCheckedRowsComplete(sheet);
      ProgressCompletes(ext, sheet.rows, 0);
      ProgressStops(ext, sheet.rows, 0);
    }
  }

  /** `process_excel`: check the header before any row is read, then post
      the rows. */
  method ProcessExcel<V>(ext: Externals<V>, sheet: Sheet<V>) returns (posted: seq<Payload<V>>, outcome: Outcome)
    requires sheet.Rectangular()
    ensures Run(posted, outcome) == ProcessRun(ext, sheet)
  {
    var missing := Missing(sheet.columns);
    if missing != [] {
      return [], MissingColumns(missing, MissingMessage(missing));
    }
    ColumnsCheckedRowsComplete(sheet);
    posted, outcome := TrackRows(ext, sheet.rows);
  }

  /** The row loop of `process_excel`: build each row's payload and post it,
      in row order, stopping at the first row that does not go through. The
      run ends as `Progress` says, and what was posted is the payloads of the
      rows up to where it ended. */
  method TrackRows<V>(ext: Externals<V>, rows: seq<Row<V>>) returns (posted: seq<Payload<V>>, outcome: Outcome)
    requires AllHaveRequired(rows)
    ensures outcome == Progress(ext, rows, 0)
    ensures PostedCount(outcome, |rows|) <= |rows|
    ensures forall j :: 0 <= j < PostedCount(outcome, |rows|) ==> Parses(ext, rows[j])
    ensures posted == Payloads(ext, rows, PostedCount(outcome, |rows|))
  {
    ProgressStops(ext, rows, 0);
    posted := [];
    var i := 0;
    while i < |rows|
      invariant 0 <= i <= |rows|
      invariant forall j :: 0 <= j < i ==> Parses(ext, rows[j])
      invariant Progress(ext, rows, 0) == Progress(ext, rows, i)
      invariant posted == Payloads(ext, rows, i)
    {
      var row := rows[i];
      var email := CleanEmail(ext.toStr(row["email"]));
      var phone := CleanPhone(ext.toStr(row["phone"]));
      var hashedEmail := ext.hash(email);
      var hashedPhone := ext.hash(phone);
      var traits := map["email" := email, "hashed_email" := hashedEmail,
                        "phone" := phone, "hashed_phone" := hashedPhone];
      var properties := Properties(row);
      var ts := ext.toIso(row["timestamp"]);
      if ts.None? {
        outcome := BadTimestamp(i);
        return;
      }
      RowPayloadSteps(ext, row, ts.value);
      PayloadsSnoc(ext, rows, i);
      posted := posted + [TrackPayload(hashedEmail, traits, properties, ts.value)];
      var status := ext.respond(i);
      if IsHttpError(status) {
        outcome := HttpError(i, status);
        return;
      }
      i := i + 1;
    }
    outcome := Completed;
  }
}
