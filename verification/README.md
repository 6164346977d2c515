# Character form core, modelled in Dafny

This project models the logic inside the character-creation form of the
admin client (`src/layout/CharacterForm.tsx`), with the React and browser
parts stripped away. What remains is a small set of pure record
transformations:

- the `YYYYMMDDHHMMSS` creation stamp, built from the local clock with
  `String(n).padStart(2, "0")`;
- identifier derivation: `character_id = {enemy|fixed}_{stamp}_01` and
  `image_name = character_id + "." + ext`. Here `ext` comes from two
  substring checks on the selected file's name, and the later (`png`) check
  wins;
- the plain field edit `handleChange(key, value)`, which stores the raw
  string;
- the drop-zone acceptance test, which looks only at the first file;
- the AI-assist merge `{user_id, character_id, image_name, ...response}`;
- what the registration and assist requests do to the record for each kind
  of outcome.

A session module runs these as a state machine, driven by the user's events.

Modules, one per concept:

| file | module | concept |
|---|---|---|
| wrappers.dfy | Wrappers | `Option` |
| text.dfy | Text | `startsWith` / `endsWith` / `includes` |
| decimal.dfy | Decimal | `String(n)` and reading a numeral back |
| stamp.dfy | Timestamp | clock readings, two-digit padding, the stamp |
| record.dfy | CharacterRecord | the record, its initial value, `handleChange` |
| upload.dfy | Upload | the dropped file and `onDrop` |
| identifiers.dfy | Identifiers | the derivation effect |
| sync.dfy | Sync | registration, AI assist, the merge |
| session.dfy | Session | one editing session as a state machine |

Inputs the browser supplies become parameters:

- the clock is a `Clock` of the six `Date` getter readings (the month is
  zero-based, as `getMonth()` returns it);
- the selected file is an `Option<File>` of MIME type and name;
- a request's outcome is an `Exchange`, either a status with a body or a
  transport failure.

Behaviour of the code worth knowing, which the model reproduces:

- **Extension.** The code checks `"jpg"` and then `"png"` (lines 217-218), so
  a name containing both yields `png`, not `jpg`.
- **Identity fields in the assist merge.** The response is spread after
  `user_id`, `character_id` and `image_name` (lines 307-312), so a response
  field of the same name replaces them: the identity fields are not
  protected from the response.
- **Decode failures.** An unparseable assist response throws inside the
  `try` (line 305) and is reported with the network-error message (lines
  327-331). It is not a distinct decoding error.
- **Year.** The year is interpolated unpadded (line 214). The stamp is
  fourteen characters only for a four-digit year.
- **Field values.** A record field holds a string, an integer, a boolean,
  `null`, or `Other`. `Other` stands for any JSON value the model does not
  look inside (a non-integer number, an array, a nested object), which an
  assist response may carry and the merge copies unchanged.

## Model

| member | source | states |
|---|---|---|
| Decimal.FromNat | src/layout/CharacterForm.tsx:195-214 | `String(n)` has at least one character, and exactly one iff n < 10 |
| Decimal.FromNatDigits | src/layout/CharacterForm.tsx:191-214 | `String(n)` is all decimal digits, with no leading zero unless n is 0 |
| Decimal.ToNatFromNat | src/layout/CharacterForm.tsx:191-214 | reading back the numeral of n gives n |
| Decimal.FromNatInjective | src/layout/CharacterForm.tsx:191-214 | distinct numbers have distinct numerals |
| Decimal.FromNatLengthCases | src/layout/CharacterForm.tsx:191-214 | the numeral has one digit iff n < 10, two iff 10 <= n < 100, and four iff 1000 <= n < 10000 |
| Timestamp.PadStart2 | src/layout/CharacterForm.tsx:195-211 | `padStart(2, "0")` has length max(2, \|s\|) and returns text of length two or more unchanged |
| Timestamp.Pad2 | src/layout/CharacterForm.tsx:195-211 | `String(n).padStart(2, "0")` has at least two characters and is the plain numeral for n >= 10 |
| Timestamp.PadStart2Shape | src/layout/CharacterForm.tsx:195-211 | `padStart(2, "0")` gives length max(2, \|s\|), ends with s, and has only zeros before it |
| Timestamp.Pad2Cases | src/layout/CharacterForm.tsx:195-211 | for n <= 9 the padded text is "0" then the digit; for 10..99 it is the plain numeral; in both cases it has length 2 |
| Timestamp.Stamp | src/layout/CharacterForm.tsx:214 | the stamp has at least eleven characters and starts with the unpadded year |
| Timestamp.TimeOfYear | src/layout/CharacterForm.tsx:214 | the part after the year (month, day, hours, minutes, seconds) has at least ten characters |
| Timestamp.StampRoundTrip | src/layout/CharacterForm.tsx:191-214 | a valid clock's stamp is all digits, has exactly ten characters after the year, and parses back to the same clock |
| Timestamp.StampInjective | src/layout/CharacterForm.tsx:189-214 | two valid clock readings have the same stamp iff they are equal |
| Timestamp.StampLength14 | src/layout/CharacterForm.tsx:191-214 | the stamp is all digits, and it is 14 characters long iff the year has four digits |
| Identifiers.Mode | src/layout/CharacterForm.tsx:188 | the mode token has five characters and is `enemy` iff the flag is true |
| Identifiers.ModeTokens | src/layout/CharacterForm.tsx:188 | the category prefix is `enemy_` iff the flag is true and `fixed_` iff it is false |
| Identifiers.Extension | src/layout/CharacterForm.tsx:216-218 | the extension is `png` or `jpg`; it is `jpg` iff a file is selected whose name contains "jpg" and does not contain "png" |
| Identifiers.ExtensionExamples | src/layout/CharacterForm.tsx:216-218 | `png_export.jpg` yields `png`; no file yields `png` |
| Identifiers.CharacterId | src/layout/CharacterForm.tsx:224 | the id has at least 20 characters, starts with the mode token and `_`, and ends with `_01` |
| Identifiers.ImageName | src/layout/CharacterForm.tsx:219 | the image name starts with the character id and a dot, and is four characters longer than the id |
| Identifiers.Derive | src/layout/CharacterForm.tsx:185-226 | with no category the record is unchanged; otherwise only `character_id` and `image_name` change, set to the derived id and image name, and every other field keeps its value |
| Identifiers.CharacterIdRoundTrip | src/layout/CharacterForm.tsx:188-224 | the character id parses back to its category and clock reading |
| Identifiers.CharacterIdInjective | src/layout/CharacterForm.tsx:188-224 | two derivations give the same id iff the category and clock reading are the same (a second later gives a new id) |
| Identifiers.CharacterIdShape | src/layout/CharacterForm.tsx:188-224 | the id starts with `enemy_` iff the flag is true and with `fixed_` iff it is false, ends with `_01`, and has 23 characters for a four-digit year |
| Identifiers.ImageNameSharesId | src/layout/CharacterForm.tsx:216-224 | the image name starts with the character id and a dot, ends with `.png` or `.jpg`, and its text after the last dot is the extension |
| CharacterRecord.InitialShape | src/layout/CharacterForm.tsx:26-65 | the initial record has exactly the 17 model fields, with the identity fields present and the identifiers empty |
| CharacterRecord.SetField | src/layout/CharacterForm.tsx:229-235 | the named field holds the raw string, every other field is unchanged, and no field disappears |
| CharacterRecord.SetFieldLastWins | src/layout/CharacterForm.tsx:229-235 | two edits of one field leave only the last |
| CharacterRecord.SetFieldCommutes | src/layout/CharacterForm.tsx:229-235 | edits to different fields commute |
| CharacterRecord.SetFieldKeepsText | src/layout/CharacterForm.tsx:229-235 | typing "18" into `age` stores the string "18", not the number 18 |
| Text.EndsWith | src/layout/CharacterForm.tsx:160-162 | `endsWith` holds only when the suffix is no longer than the text, and then the two end with the same character |
| Text.Contains | src/layout/CharacterForm.tsx:217-218 | `includes` holds only when the needle is no longer than the text, and holds whenever the text starts with the needle |
| Upload.Acceptable | src/layout/CharacterForm.tsx:158-163 | a PNG or JPG MIME type alone accepts a file, and so does a `.png` or `.jpg` name alone |
| Upload.OnDrop | src/layout/CharacterForm.tsx:154-164 | an empty drop keeps the selection; otherwise only the first file counts, and it becomes the selection iff it is acceptable |
| Upload.EndsWithDotIff | src/layout/CharacterForm.tsx:160-162 | for a dot-free extension, a name ends with "." + ext iff ext is the text after its last dot |
| Upload.AcceptableByExtension | src/layout/CharacterForm.tsx:158-163 | a file is accepted iff its MIME type is `image/png` or `image/jpg`, or the text after its last dot is `png` or `jpg` |
| Upload.JpegRefused | src/layout/CharacterForm.tsx:156-163 | an `image/jpeg` file named `.jpeg` is refused, and an acceptable file dropped behind it is ignored |
| Sync.Merge | src/layout/CharacterForm.tsx:307-312 | the merged fields are the current identity fields plus the response fields; response values win, and the identity values survive only where the response is silent |
| Sync.MergeIdempotent | src/layout/CharacterForm.tsx:307-316 | merging the same response twice equals merging it once |
| Sync.MergeKeepsIdentityUnlessOverridden | src/layout/CharacterForm.tsx:307-312 | if the response names no identity field, the three identity values are kept and the rest is exactly the response |
| Sync.ResponseOverridesIdentity | src/layout/CharacterForm.tsx:307-312 | a response that names `user_id` replaces it |
| Sync.MergeExample | src/layout/CharacterForm.tsx:307-312 | an example: identity kept, `name` and `hp` from the response, `age` dropped |
| Sync.Spread | src/layout/CharacterForm.tsx:311 | `...resModel` contributes an object's own fields and nothing for a scalar |
| Sync.Register | src/layout/CharacterForm.tsx:251-277 | registration never changes the record; success iff a 2xx response with a JSON body; rejected with the status iff non-2xx; otherwise a network error |
| Sync.Assist | src/layout/CharacterForm.tsx:294-333 | the record changes only on success; success iff a 2xx response whose body parses twice, and then the record is the merge; rejected with the status iff non-2xx |
| Sync.ReportsAgreeOnFailure | src/layout/CharacterForm.tsx:258-331 | apart from an unreadable inner payload, a failed assist reports exactly what registration would report for the same outcome |
| Session.Step | src/layout/CharacterForm.tsx:146-334 | a drop changes only the selection; re-choosing the current category and registering change nothing; only a category choice changes the flag |
| Session.Run | src/layout/CharacterForm.tsx:146-334 | once a category is chosen it is never unset again, and a run of registrations leaves the state unchanged |
| Session.RunKeepsIdentity | src/layout/CharacterForm.tsx:146-334 | from any record holding the identity fields, every run of events keeps them present |
| Session.SessionKeepsIdentity | src/layout/CharacterForm.tsx:47-334 | in every session from the initial record, `user_id`, `character_id` and `image_name` are present |
| Session.ChooseCategoryStamps | src/layout/CharacterForm.tsx:185-226 | choosing a new category sets the flag and stamps a matching id and image name; choosing it again changes nothing |
| Session.DropKeepsRecord | src/layout/CharacterForm.tsx:154-226 | dropping a file never changes the record, so the image name keeps the extension chosen when the category was set |
| Session.FailedRequestsChangeNothing | src/layout/CharacterForm.tsx:238-334 | registration, and an assist that does not succeed, leave the whole state unchanged |

## Left out

- `fetch`, `FormData`, `JSON.stringify` of the request and the text of `response.json()`: network and foreign calls. A request's outcome is a parameter, and the response is given already decoded.
- The local-time reading `new Date()` and its getters: they are the `Clock` parameter. `ValidClock` states the ranges the getters return.
- Negative years: the year is a natural number, so the `-` sign `String` would print for a year before 1 BCE is not modelled. Years of any number of digits are modelled.
- Sync.Merge: a current record without an identity field contributes nothing for it, where JavaScript would write that key with value `undefined`. Session.SessionKeepsIdentity shows that this never happens in a session.
- Sync.Assist: an inner JSON string or array would be spread as index-keyed characters or elements. The model treats every non-object inner value as spreading nothing.
- The `FileReader` `onload` handler (lines 168-178): it is never reached, because no read is started.
- `URL.createObjectURL` and the image preview, and all JSX rendering.
- The input constraints `required`, `min` and `max` (lines 100 and 107): the browser enforces them, not this code.
- The busy flags `isSubmitting` / `isAIthinking` and the message strings. Only the kind of message (`Report`) is modelled.
- Concurrency: a request is treated as completing before the next event. The stale `character` captured by an in-flight assist request is not modelled.
- The assist button is only shown when `image_name` is non-empty (line 450). The session model allows an assist request at any time.
- `src/layout/PrivacyPolicy.tsx`, `src/layout/Home.tsx` and `src/App.tsx` hold static content, a link and routing; they have no logic to model.
