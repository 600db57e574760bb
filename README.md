# segment_excel: spreadsheet rows to Segment track calls

A Dafny model of `segment_excel.py`, a script that reads a spreadsheet and
sends every row to Segment's `/v1/track` endpoint as a `"Checked In"` event.
The model covers the script's core:

- the field normalisers `clean_email` (strip surrounding whitespace, then
  lower-case) and `clean_phone` (keep the digits, in order);
- the required-column check, which lists the required names missing from
  the header, in required order, and fails before any row is read when
  that list is not empty;
- the payload built for each row: `context.traits` with the raw and hashed
  cleaned email and phone, `properties` with the three club columns copied
  unchanged, the hashed email as `userId`, and the fixed event name;
- the row loop, which posts one payload per row, in row order, and stops at
  the first row whose timestamp does not convert or whose POST is answered
  with a 4xx or 5xx status.

Files:

- `seqs.dfy` (module `Seqs`): `Filter`, the shape of both `filter(str.isdigit, …)`
  and the list comprehension `[c for c in required if c not in df.columns]`,
  with its laws: the result is the input with the rejected elements removed
  (an order-preserving embedding that hits exactly the kept positions),
  membership, concatenation, identity and idempotence.
- `pystr.dfy` (module `PyStr`): the Python string built-ins the script uses,
  on ASCII: `str.isspace`, `str.strip`, `str.lower`, `str.isdigit`, `str.join`.
- `segment_excel.dfy` (module `SegmentExcel`): the script itself.

What lies outside the script is passed in as the datatype `Externals`:
Python's `str()` of a cell (`toStr`), SHA-256 as a hex string (`hash`, an
uninterpreted deterministic function), the pandas timestamp conversion
(`toIso`, `None` when it raises), and the HTTP status the service answers to
the n-th POST of the run (`respond`). A run is specified by the function
`ProcessRun`. It gives the payloads posted, in order, and how the run ended:
completed, missing columns (the missing names and the KeyError text built from them), a bad timestamp at row k, or an HTTP error at
row k. The methods `ProcessExcel` and `TrackRows` are proved to compute
exactly that.

The model does what this script's code does, which is narrower than the
tool's general description: `properties` holds only the three club columns,
not every remaining column. Email and phone are sent both raw and hashed. The
user id is always the hashed email, with no fallback column. There is no
batch mode and no hashing flag.

## Model

| member | source | states |
|---|---|---|
| `Seqs.Filter` | segment_excel.py:18 | the filtered sequence is no longer than the input and every element it holds satisfies the predicate |
| `Seqs.FilterEmbedding` | segment_excel.py:18 | filtering removes exactly the rejected elements: the result embeds into the input along strictly increasing positions, and a position is used exactly when its element satisfies the predicate |
| `Seqs.FilterMembers` | segment_excel.py:50 | an element is in the result exactly when it is in the input and satisfies the predicate |
| `Seqs.FilterAppend` | segment_excel.py:18 | filtering a concatenation is concatenating the filtered parts |
| `Seqs.FilterIdentity` | segment_excel.py:18 | filtering leaves a sequence unchanged exactly when all its elements satisfy the predicate |
| `Seqs.FilterIdempotent` | segment_excel.py:18 | filtering twice equals filtering once |
| `PyStr.LowerStrNoUpper` | segment_excel.py:14 | after `str.lower` no ASCII upper-case letter remains |
| `PyStr.LowerStrIdempotent` | segment_excel.py:14 | lower-casing twice equals lower-casing once |
| `PyStr.LowerStrNoEdgeSpace` | segment_excel.py:14 | lower-casing keeps a string free of whitespace at both ends |
| `PyStr.TrimStartSlice` | segment_excel.py:14 | left-stripping drops exactly the maximal leading whitespace run |
| `PyStr.TrimEndSlice` | segment_excel.py:14 | right-stripping drops exactly the maximal trailing whitespace run |
| `PyStr.StripSlice` | segment_excel.py:14 | `str.strip()` returns the slice left after removing the maximal whitespace prefix and suffix, and that slice has no whitespace at either end |
| `PyStr.StripIdentity` | segment_excel.py:14 | stripping leaves a string unchanged exactly when neither end is whitespace |
| `PyStr.StripIdempotent` | segment_excel.py:14 | stripping twice equals stripping once |
| `PyStr.JoinContains` | segment_excel.py:52 | every part of `sep.join(parts)` occurs in the joined string at some offset |
| `SegmentExcel.CleanEmailShape` | segment_excel.py:13-14 | the cleaned email has no whitespace at either end and no upper-case letter, and is the lower-cased slice of the input left after removing surrounding whitespace |
| `SegmentExcel.CleanEmailIdempotent` | segment_excel.py:13-14 | cleaning an already cleaned email returns it unchanged |
| `SegmentExcel.CleanEmailExample` | segment_excel.py:13-14 | `" Test@Example.COM "` cleans to `"test@example.com"` |
| `SegmentExcel.CleanPhoneDigits` | segment_excel.py:17-18 | the cleaned phone holds digits only and is the input with every non-digit removed, digits kept in their original order |
| `SegmentExcel.CleanPhoneIdempotent` | segment_excel.py:17-18 | cleaning a cleaned phone changes nothing, and cleaning leaves a string unchanged exactly when it is all digits |
| `SegmentExcel.MissingExactly` | segment_excel.py:42-50 | the missing list is the required list with the present names removed, in required order: it embeds into the required list at exactly the positions of the names the header lacks |
| `SegmentExcel.MissingMembers` | segment_excel.py:42-50 | a name is in the missing list exactly when it is required and not a header column |
| `SegmentExcel.MissingEmpty` | segment_excel.py:50-51 | the missing list is empty exactly when the header has every required column |
| `SegmentExcel.MissingMessageNames` | segment_excel.py:52 | the KeyError message names every missing column, each at an offset in the text; the message is the one a missing-columns run ends with (`ProcessRunSpec`) |
| `SegmentExcel.ColumnsCheckedRowsComplete` | segment_excel.py:50-56 | once the check passes, every row has every column the loop reads |
| `SegmentExcel.RowPayloadShape` | segment_excel.py:28-34 | a row's payload has the event "Checked In"; traits with exactly the keys email, hashed_email, phone, hashed_phone, the hashes being of the cleaned values; user id equal to hashed_email; properties with exactly the three club columns copied from the row, so no email, phone or timestamp; the converted timestamp |
| `SegmentExcel.CleanedEmailSameUser` | segment_excel.py:55-57 | a row whose email cell, as a string, is exactly `clean_email` of another row's email gets the same user id as that other row |
| `SegmentExcel.PayloadsSnoc` | segment_excel.py:54-75 | posting one more row appends exactly that row's payload |
| `SegmentExcel.ProgressCompletes` | segment_excel.py:54-75 | the rows complete exactly when every row's timestamp converts and every POST is answered without a 4xx or 5xx error |
| `SegmentExcel.ProgressStops` | segment_excel.py:54-75 | a run stops at the first row that does not go through: at its timestamp, before its POST, or at its POST's error status; every earlier row went through, and every posted row had a timestamp that converted |
| `SegmentExcel.PostedWellShaped` | segment_excel.py:54-75 | every payload posted is the well-shaped payload of the row at the same position |
| `SegmentExcel.ProcessRunSpec` | segment_excel.py:42-75 | the run fails on missing columns exactly when the missing list is non-empty, ending with that list and the KeyError text built from it and posting nothing; it completes exactly when every row goes through, posting one payload per row; a bad timestamp at row k leaves exactly rows 0..k-1 posted; an HTTP error at row k leaves exactly rows 0..k posted; every posted event is "Checked In" |
| `SegmentExcel.ProcessExcel` | segment_excel.py:39-54 | the method checks the header before any POST and then posts the rows; what it posts and how it ends are exactly `ProcessRun` |
| `SegmentExcel.TrackRows` | segment_excel.py:54-75 | the loop ends as `Progress` says; what it posted is the payloads of rows 0.. up to the stop, in row order, each for a row whose timestamp converted |

## Left out

- HTTP transport (`requests.post`, the URL and the basic-auth write key): each POST is recorded in the `posted` sequence, and the service's answer is the parameter `respond`. Connection failures and other exceptions `requests` raises without a status are not modelled.
- `pd.read_excel`: the sheet is given as its header and its rows. A data frame's guarantee that every row has a cell for each column is the precondition `Rectangular`.
- Timestamp conversion (`pd.to_datetime(..., utc=True).isoformat()` with `+00:00` replaced by `Z`): an opaque conversion `toIso` whose failure stands for the ValueError pandas raises.
- SHA-256 and its hex encoding: an uninterpreted deterministic function `hash`; digest length and alphabet are not modelled.
- Python's `str()` of a cell value (numbers, dates, missing cells): the parameter `toStr`.
- Command-line and environment handling (`parse_args`, `SEGMENT_WRITE_KEY`, the placeholder check at lines 84-89): process glue, not modelled.
- Unicode: whitespace, letters and digits are ASCII only. Non-ASCII whitespace is not stripped, non-ASCII letters are not lower-cased, and non-ASCII digits are not kept.
- `SegmentExcel.ProcessExcel` delegates the row loop to `SegmentExcel.TrackRows`. In the script both are one function, with the loop at lines 54-75.
