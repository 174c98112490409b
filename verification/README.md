# Aster verification model

A Dafny model of the parts of Aster whose correctness other parts rely on, with proofs of what
they promise. `dafny verify dfyconfig.toml` checks everything.

**Python-exact JSON** (`Utf8`, `Decimal`, `Json`, `Printer`, `Grammar`, `Scalars`, `RoundTrip`,
`Soundness`, `Syntax`, `Documents`, `Language`, `Unambiguous`, `Canonical`, `Context`, `Depth`,
`ByteParser`, `Writer`, `TextForm`, `Signer`, `Chars`, `Manifest`, `ManifestLaws`). Signatures and contract IDs are computed
over JSON text, so parsing and printing have to undo each other and the signing form has to be
canonical. The parser's results are given by a function on characters (`Grammar`), proved to
accept exactly the documents of a grammar of syntax trees (`Syntax`) and to read each as what its
tree means (`Documents`); the grammar has its own tables of digits, escapes and white space.
`TextForm` says what printed text looks like, character by character, and `ManifestLaws` what a
canonical manifest holds and which files have one. A text has at most one tree, which decides what languages it is in
(`Language`, `Unambiguous`). `ByteParser`
is the program's parser, a class that moves an index over UTF-8 bytes, proved to compute that
function; `Writer` is its printer, a class that pushes onto a buffer, proved to compute the
printing function. A floating point number is identified with its shortest decimal, and rounding
is any function `Rounding` from decimals to floats that leaves floats alone (`Proper`), so the
results hold for IEEE doubles and for any other format.

**Request ledger** (`Bytes`, `Ledger`, `LedgerRuns`, `Admission`, `RequestLedger`). The durable
table that makes job submission idempotent. `RequestLedger` is the program's class; `Ledger.Step`
is the map it refines; `LedgerRuns` proves what holds over every run of operations, and
`Admission` exactly what is admitted, dropped and moved, with the limits as numbers.

**MCP call registry** (`Mcp`, `McpLaws`). The reader, one task per call and cancellation, as interleaved
steps over the shared registry. Taking an entry out of the registry and sending the answer are
separate steps, and an abort does not stop a task that is past its last await.

**Job supervisor, job store and output spool** (`Jobs`, `Spool`, `SpoolFile`, `Pages`,
`PageLaws`, `SupervisorRuns`, `StopLaws`, `Supervisor`). `SupervisorRuns` gives the loop as a
function of what the system answers in each round and proves what holds over every run;
`StopLaws` says exactly when a job is stopped, killed and reported as what; `Supervisor` is the
program, updating its variables, the store and the spool step by step, proved to compute that
function.

**Configuration** (`NameSets`, `ConfigTables`, `ConfigLaws`, `ConfigMigration`, `ConfigReading`,
`ConfigStore`). Tables to configurations and back, migration from format 0, and concurrent locked updates with
failing calls, killed processes and power loss.

**Shell splitter** (`Shell`) and **retry loop** (`Retry`).

Results that show where the program falls short of what its documentation says, each with the
exact condition and an input that meets the failing case:

- `Signer.ServerSeesSignedText`, inputs `Signer.NonceBody` and `Signer.DeepBody`: the server gets
  back the text that was signed if and only if the body has no field `action`, `timestamp` or
  `nonce` of its own and is at most 512 levels deep. None of the 13 payload types of the crate
  (aster-directory-client/src/payload.rs:16-119) has such a field at its top level or nests that
  deep, so only a new implementor of the public trait can meet this.
- `Mcp.AnsweredExactlyWithReuse`, input `Mcp.ReuseWitness`: some run sends the answer of a
  cancelled call if and only if the client uses a cancelled call's ID for a later call.
- `ConfigLaws.SavedReloadsExactly`, inputs `ConfigLaws.BadNameSaved` and
  `ConfigLaws.KnownKeyKept`: a change may save a file that the next load refuses or reads as
  something else. What was saved loads as itself, services sorted, if and only if its integers
  can be stored, its names are valid and none of the keys it keeps for other tools is the
  program's own.
- `ConfigStore.FailureLeavesNoTrace`, input `ConfigStore.LateFailure`: in every run without power
  loss, an update that reported an error is in the file's history if and only if what failed was
  syncing the directory after the rename. A power loss can still take it away
  (`ConfigStore.LateFailureUndone`).
- `ConfigMigration.UnknownHandleLost`, input `ConfigMigration.HandleNoteLost`: unknown keys are
  kept on save at the top, service and profile levels (`ConfigMigration.UnknownTopKept`,
  `ConfigMigration.UnknownServiceKept`, `ConfigMigration.UnknownProfileKept`) and every entry of
  a profile's addresses is kept, but of a handle only its three known keys are.
- `Unambiguous.AgainstDocumented`, inputs `Unambiguous.PlusIsBeyond` and
  `Unambiguous.BracketsAccepted`: the documentation describes standard JSON with `NaN` and the
  infinities and without unpaired surrogates. Beyond that the parser takes exactly the texts with
  a `+` as the first of the four digits of a `\u` escape, and of that it refuses exactly the
  texts nested deeper than 512. `Unambiguous.AgainstStandard` says the same for RFC 8259 itself,
  which in addition lacks the three words and has unpaired surrogate escapes
  (`Unambiguous.LoneSurrogateRefused`).
- `Pages.ServedPageExactly`, input `Pages.FullFrameExceeds`: a page exceeds 4/3 of its byte budget
  if and only if it is a single frame whose size, given by a formula, does.

## Model

| member | source | states |
|---|---|---|
| `Utf8.ByteOrderIsCodePointOrder` | aster-directory-client/src/pyjson.rs:168-171 | comparing strings by UTF-8 bytes orders them exactly as comparing by code point, for all strings |
| `Utf8.SplitAt` | aster-directory-client/src/pyjson.rs:242-250 | an offset that does not hold a continuation byte splits the text between two characters |
| `Utf8.EncodeDecode` | aster-directory-client/src/pyjson.rs:242-250 | a well-formed byte sequence is the encoding of what it decodes to |
| `Utf8.EncodedForm` | aster-directory-client/src/pyjson.rs:242-250 | a character takes one to four bytes by its size and the bytes hold its number, six bits to each but the first |
| `Utf8.LexExactly` | aster-directory-client/src/pyjson.rs:168-171 | of two sequences that part at some place, the one that ends there or is smaller there comes first |
| `Scalars.StringRoundTrip` | aster-directory-client/src/pyjson.rs:194-218 | every string, escaped in either mode, is read back exactly up to its closing quote |
| `Scalars.Utf16RoundTrip` | aster-directory-client/src/pyjson.rs:208-213 | the one or two UTF-16 escapes written for any character are read as that character |
| `Scalars.IntegerRoundTrip` | aster-directory-client/src/pyjson.rs:356-397 | an integer literal up to a boundary is read as the integer it names, of any size |
| `Scalars.FloatRoundTrip` | aster-directory-client/src/pyjson.rs:223-240 | the text of a decimal is read as that decimal rounded, whatever the rounding |
| `Scalars.MagnitudeParts` | aster-directory-client/src/pyjson.rs:223-240 | both branches of `float_repr` write a literal that denotes exactly the number given |
| `RoundTrip.ValueRoundTrip` | aster-directory-client/src/pyjson.rs:270-353 | a printed value followed by anything that may follow a value is read as its normal form and leaves what followed |
| `RoundTrip.ParseDumps` | aster-directory-client/src/pyjson.rs:72-187 | for every value at most 512 deep and every option combination, parsing the printed text gives the value with repeated keys merged and, when asked, keys sorted |
| `RoundTrip.ParseDumpsExact` | aster-directory-client/src/pyjson.rs:72-187 | without repeated keys and without sorting the value itself comes back |
| `Soundness.ParseSound` | aster-directory-client/src/pyjson.rs:270-353 | every parsed value nests at most 512 deep, has distinct keys in every object, and holds only in-range integers, out-of-range literals and floats |
| `Documents.ParseIsExact` | aster-directory-client/src/pyjson.rs:72-86 | parsing a text gives a value if and only if the text is a document of the grammar, at most 512 deep, that means the value, with white space around it |
| `Unambiguous.SpellingUnique` | aster-directory-client/src/pyjson.rs:270-462 | no text has two syntax trees, also when plus signs, unpaired surrogates and any depth are allowed |
| `Unambiguous.TreeExists` | aster-directory-client/src/pyjson.rs:270-462 | every accepted text and every text of one of the languages has a syntax tree |
| `Unambiguous.AgainstDocumented` | aster-directory-client/src/pyjson.rs:68-86 | an accepted text is standard JSON with the three words of Python and without unpaired surrogates if and only if its tree has no plus sign among hexadecimal digits; a text of that language is accepted if and only if it is at most 512 deep |
| `Unambiguous.AgainstStandard` | aster-directory-client/src/pyjson.rs:68-86 | an accepted text is in RFC 8259 if and only if its tree has no such plus sign and none of the words of Python; a text of RFC 8259 is accepted if and only if it has no unpaired surrogate escape and is at most 512 deep |
| `Unambiguous.PlusIsBeyond` | aster-directory-client/src/pyjson.rs:399-407 | a plus sign among the hexadecimal digits of an escape is accepted and is in neither language |
| `Unambiguous.LoneSurrogateRefused` | aster-directory-client/src/pyjson.rs:409-462 | an unpaired surrogate escape is in RFC 8259 and is refused |
| `Unambiguous.BracketsAccepted` | aster-directory-client/src/pyjson.rs:291-299 | nested brackets are in every one of the languages and are accepted exactly up to 512 deep |
| `Language.GoodIsAccepted` | aster-directory-client/src/pyjson.rs:270-353 | the documents of the parser are the trees with any plus signs and words, without unpaired surrogates, at most 512 deep |
| `Documents.TreeReads` | aster-directory-client/src/pyjson.rs:270-353 | every syntax tree's text, up to a boundary, is read as what the tree means, whatever white space it holds |
| `Documents.TreeOf` | aster-directory-client/src/pyjson.rs:270-353 | every value read comes from the text of a syntax tree that means it |
| `Documents.NumberReads` | aster-directory-client/src/pyjson.rs:356-397 | sign, digits, fraction and exponent in either case are read as the number they denote |
| `Documents.UnitReads` | aster-directory-client/src/pyjson.rs:409-462 | each plain character, short escape, UTF-16 unit and surrogate pair is read as its character |
| `Documents.HexCharWorth` | aster-directory-client/src/pyjson.rs:399-407 | each of the sixteen hexadecimal digits is worth its place, in either case, for the parser and for the grammar |
| `Documents.EscapeParses` | aster-directory-client/src/pyjson.rs:399-462 | a quoted `\u` escape of any 16-bit number that is no surrogate, its digits in either case, is read as that character |
| `Soundness.ReparseExact` | aster-directory-client/src/pyjson.rs:72-187 | whatever text a value was read from, printing and reading it again gives the same value |
| `Depth.ReadBack` | aster-directory-client/src/pyjson.rs:72-187 | the text printed from a value of any depth is read as its normal form or not at all |
| `Depth.AcceptedWithinDepth` | aster-directory-client/src/pyjson.rs:242-299 | for every value with distinct keys and every option combination, the printed text parses if and only if the value is at most 512 deep |
| `Json.UpsertEffect` | aster-directory-client/src/pyjson.rs:340-344 | a repeated key takes the last value in the first position and no other field changes |
| `Json.SortEffect` | aster-directory-client/src/pyjson.rs:166-171 | sorting is a permutation in ascending key order |
| `Json.SortIsByCodePoint` | aster-directory-client/src/pyjson.rs:168-171 | sorted fields are ascending by code point, which is the key order of Python |
| `Json.SortStable` | aster-directory-client/src/pyjson.rs:166-171 | fields that share a key keep their order |
| `Json.SortPermuted` | aster-directory-client/src/pyjson.rs:166-171 | with distinct keys the sorted fields do not depend on the order they came in |
| `Json.NormalizeUnsorted` | aster-directory-client/src/pyjson.rs:340-344 | normal form is the identity on values with distinct keys unless it sorts |
| `Canonical.DumpsInjective` | aster-directory-client/src/pyjson.rs:120-187 | equal texts were printed from values with equal normal forms, at any depth |
| `Canonical.SigningIsCanonical` | aster-directory-client/src/pyjson.rs:45-51 | two values have the same signing text if and only if they differ only in the order of fields at any level |
| `Canonical.ReserialisedIsSigned` | aster-directory-client/src/payload.rs:1-5 | parsing a signing text and printing it again reproduces it |
| `Canonical.SigningFormIdempotent` | aster-directory-client/src/pyjson.rs:45-51 | bringing any parsable text to signing form twice is the same as once |
| `Context.ValueExtend` | aster-directory-client/src/pyjson.rs:270-289 | how a value is read does not depend on what follows it from a boundary on, nor on unused depth |
| `Context.NumberExtend` | aster-directory-client/src/pyjson.rs:356-397 | text after a number, from a boundary on, does not change how the number is read |
| `ByteParser.ParseText` | aster-directory-client/src/pyjson.rs:72-86 | on every UTF-8 text the byte-level parser terminates, slices only between characters, and returns what the grammar says |
| `ByteParser.Parser.Value` | aster-directory-client/src/pyjson.rs:270-299 | dispatch and nesting agree with the grammar and restore the depth |
| `ByteParser.Parser.Items` | aster-directory-client/src/pyjson.rs:301-319 | the array loop reads the items the grammar reads |
| `ByteParser.Parser.Fields` | aster-directory-client/src/pyjson.rs:321-353 | the object loop upserts the fields the grammar reads |
| `ByteParser.Parser.Number` | aster-directory-client/src/pyjson.rs:356-397 | the number scanner takes the longest literal and reads it as the grammar does |
| `ByteParser.Parser.FourHex` | aster-directory-client/src/pyjson.rs:399-407 | four bytes are read as a number exactly when four characters would be |
| `ByteParser.Parser.String` | aster-directory-client/src/pyjson.rs:409-462 | runs, escapes and surrogate pairs are read as the grammar reads them |
| `ByteParser.Parser.Slice` | aster-directory-client/src/pyjson.rs:409-430 | a slice between character boundaries is the text between them |
| `Writer.WriteAll` | aster-directory-client/src/pyjson.rs:120-124 | the buffer ends up holding exactly the printed text |
| `Writer.Buffer.Write` | aster-directory-client/src/pyjson.rs:126-187 | writing a value appends its text, for every option combination |
| `Writer.Buffer.WriteStr` | aster-directory-client/src/pyjson.rs:194-218 | writing a string appends its quoted, escaped text |
| `TextForm.ListForm` | aster-directory-client/src/pyjson.rs:126-163 | an array prints as its items' texts between brackets, joined by the separator or the line and indentation the options ask for |
| `TextForm.RecordForm` | aster-directory-client/src/pyjson.rs:164-187 | an object prints as its members' texts between braces in the same way, in their order or sorted |
| `TextForm.PythonDefaultForm` | aster-directory-client/src/pyjson.rs:52-58 | by default items are joined by comma and blank and a key is followed by colon and blank |
| `TextForm.SigningForm` | aster-directory-client/src/pyjson.rs:45-51 | for signing they are joined by a comma and a colon, the fields sorted |
| `TextForm.PrettyForm` | aster-directory-client/src/pyjson.rs:59-65 | with an indentation of 2 each entry is on its own line after two blanks |
| `TextForm.ScalarForm` | aster-directory-client/src/pyjson.rs:145-151 | how each value that is no container prints |
| `TextForm.StringForm` | aster-directory-client/src/pyjson.rs:194-218 | a string prints as its characters' escapes between quotes |
| `TextForm.OtherEscapes` | aster-directory-client/src/pyjson.rs:204-214 | a character without a short escape prints as itself unless it is a control character or, in ASCII mode, outside blank to tilde; then as its UTF-16 units in four lower-case hexadecimal digits |
| `TextForm.PrintedIsAscii` | aster-directory-client/src/pyjson.rs:189-193 | in ASCII mode every character printed for any value is in the range blank to tilde, or a line end where the text is indented |
| `TextForm.FloatForm` | aster-directory-client/src/pyjson.rs:220-240 | a float prints with an exponent if and only if it is not zero and below 1e-4 or at least 1e16; then with one digit before the point; otherwise with a point and `.0` for whole numbers; no digit could be left out and the parts denote the number |
| `TextForm.ExponentForm` | aster-directory-client/src/pyjson.rs:230-236 | an exponent is a sign and at least two digits, without a leading zero beyond two |
| `Signer.SignAt` | aster-directory-client/src/lib.rs:80-94 | only objects are signed, over the signing text of the body with three fields pushed after its own |
| `Signer.ServerSeesSignedText` | aster-directory-client/src/payload.rs:1-5 | for a body of any depth, the server parses the text and its re-serialisation equals the signed text if and only if the body carries none of the three added keys and is at most 512 deep |
| `Signer.NonceBody` | aster-directory-client/src/lib.rs:80-94 | a body with a field `nonce` of its own is re-serialised to a text other than the one signed |
| `Signer.DeepBody` | aster-directory-client/src/lib.rs:80-94 | a body with 512 nested arrays in a field is signed to a text that does not parse |
| `Signer.RepeatedKeyShortens` | aster-directory-client/src/lib.rs:80-94 | an object with a repeated key re-serialises to a strictly shorter text |
| `Manifest.CanonicalIdempotent` | aster-directory-client/src/manifest.rs:58-113 | a manifest's canonical text canonicalises to itself, with the same contract ID |
| `Manifest.CanonicalIgnoresKeyOrder` | aster-directory-client/src/manifest.rs:58-113 | the canonical manifest does not depend on the order of its top-level keys |
| `Manifest.CanonicalAllElementwise` | aster-directory-client/src/manifest.rs:116-124 | canonicalising a list's text is canonicalising each element's own text, when the elements leave room for one more level |
| `Manifest.CanonicalFields` | aster-directory-client/src/manifest.rs:58-113 | the loop over the field table computes the canonical manifest of the fields, or refuses |
| `Manifest.FillFixed` | aster-directory-client/src/manifest.rs:78-85 | filling in defaults leaves a field list that is already canonical as it is |
| `Manifest.GetPermuted` | aster-directory-client/src/pyjson.rs:113-118 | looking a key up does not depend on the order of distinct fields |
| `ManifestLaws.ContentsExactly` | aster-directory-client/src/manifest.rs:58-113 | the canonical text parses to the 22 fields of the table in order; each is the file's field of that name or, if it has none, the default; the three counts are made integers; service and version are those of the text and the contract ID is its hash |
| `ManifestLaws.AcceptedExactly` | aster-directory-client/src/manifest.rs:58-113 | a text has a canonical manifest if and only if it is an object without unknown fields, with a `v` that is not null, whole counts, a string service, at most 10,000 methods of at most 1,000 fields and at most 100,000 type hashes |
| `ManifestLaws.FileExactly` | aster-directory-client/src/manifest.rs:116-124 | a file that holds a list gives the manifests of its items in order, and none if one item has none; any other file gives its own |
| `ManifestLaws.FieldTable` | aster-directory-client/src/manifest.rs:15-40 | the names, order and defaults of the fields |
| `ManifestLaws.AsIntExactly` | aster-directory-client/src/manifest.rs:127-135 | a value is taken as an integer exactly when it is one, a truth value, a finite float or a text that spells one that fits 128 bits in white space |
| `Chars.TrimExactly` | aster-directory-client/src/manifest.rs:132 | trimming removes the white space at both ends and nothing else |
| `Chars.WhitespaceIs` | aster-directory-client/src/manifest.rs:132 | which 25 characters are white space |
| `RequestLedger.KeyDataInjective` | aster-exec/src/ledger.rs:71-78 | the length-prefixed bytes hashed for a request identify caller, target and request ID |
| `RequestLedger.RequestLedger.ReserveWithOutput` | aster-exec/src/ledger.rs:160-229 | a new key is admitted if and only if there is room for it, by the numbers of `Admission.HasRoom`; a known key is repeated or refused by its digest; an error leaves the table unchanged; a fresh reservation is prune then insert |
| `RequestLedger.RequestLedger.AdvancePhase` | aster-exec/src/ledger.rs:231-269 | only legal phase changes are stored, with the terminal time exactly for Terminal |
| `RequestLedger.RequestLedger.Bury` | aster-exec/src/ledger.rs:292-323 | a tombstone is terminal, holds its error and reserves no output; a wrong phase changes nothing |
| `RequestLedger.RequestLedger.PruneExpired` | aster-exec/src/ledger.rs:327-356 | exactly the entries past request retention are dropped and counted |
| `RequestLedger.RequestLedger.Tally` | aster-exec/src/ledger.rs:192-207 | the loop keeps exactly the entries within retention and finds how many there are, how many are unfinished and how much output they hold |
| `Admission.AdmittedExactly` | aster-exec/src/ledger.rs:160-229 | a new request is admitted if and only if fewer than 32 jobs are unfinished, fewer than 65,536 entries are within seven days of their end, it asks for at most 256 MiB, and at most 4 GiB are held together; the table after it is given outright |
| `Admission.RoomSuffices` | aster-exec/src/ledger.rs:208-214 | counted over the whole table, expired entries included, the same limits suffice |
| `Admission.ActiveIsCount` | aster-exec/src/ledger.rs:196-204 | the active jobs counted are the keys whose phase is not Terminal |
| `Admission.DroppedExactly` | aster-exec/src/ledger.rs:195-200 | an entry is dropped if and only if the step is a prune or an admission at least seven days after its job ended |
| `Admission.PrunedCount` | aster-exec/src/ledger.rs:327-356 | a prune reports as many entries as the table loses |
| `Admission.MovesExactly` | aster-exec/src/ledger.rs:231-323 | an entry changes if and only if the step moves it along Preparing, Accepted, Terminal or gives it up; what it becomes is given field by field, and no other entry changes |
| `Admission.RefusedExactly` | aster-exec/src/ledger.rs:231-323 | such a step reports a missing key or an illegal move exactly then, and changes nothing |
| `LedgerRuns.LookupFindsReservation` | aster-exec/src/ledger.rs:128-140 | until its key is dropped a lookup finds the reservation with the job, digest and acceptance time it was made with, in a phase no earlier, and changes nothing |
| `LedgerRuns.StepKeeps` | aster-exec/src/ledger.rs:160-356 | every operation keeps the capacity invariant, and only an admission can raise reserved output |
| `LedgerRuns.RunInv` | aster-exec/src/ledger.rs:192-214 | from an empty ledger no run holds more than 32 unfinished jobs or 65,536 requests, Terminal holds exactly when a terminal time is set, and an admission error implies Terminal with no output reserved |
| `LedgerRuns.OutputBudget` | aster-exec/src/ledger.rs:192-214 | unexpired reserved output is at most 4 GiB at any time not before the last admission |
| `LedgerRuns.SumsAreExact` | aster-exec/src/ledger.rs:192-214 | in every reachable table the saturating sum is the exact sum |
| `LedgerRuns.IdentityKept` | aster-exec/src/ledger.rs:231-323 | while a key stays, its job, digest and acceptance time stay and its phase only moves forward |
| `LedgerRuns.RetryIsIdempotent` | aster-exec/src/ledger.rs:160-190 | until the key is dropped every reserve gets the same job for the same digest, a conflict for any other, and changes nothing |
| `LedgerRuns.TerminalOrigin` | aster-exec/src/ledger.rs:231-323 | a terminal entry was made terminal by one earlier step, at the time it records |
| `LedgerRuns.EntryOrigin` | aster-exec/src/ledger.rs:215-229 | every entry began as a fresh reservation in phase Preparing |
| `LedgerRuns.DistinctJobsAreSeparated` | aster-exec/src/ledger.rs:160-356 | two successful reservations of one key for different jobs are separated by the first job's terminal step and a later drop at least the retention period after it |
| `Ledger.TotalRemove` | aster-exec/src/ledger.rs:192-207 | the sum over the table does not depend on the order entries are visited |
| `Bytes.LittleEndianRoundTrip` | aster-exec/src/spool.rs:33-86 | fixed-width little-endian numbers read back |
| `Bytes.LowestFirst` | aster-exec/src/spool.rs:33-86 | numbers of 4 and 8 bytes are their digits to base 256, the lowest first |
| `Mcp.MoveKeeps` | aster-cli-kit/src/mcp.rs:260-315 | every step keeps the invariant linking registry, tasks and sent answers when no cancelled ID is reused |
| `Mcp.SafeWithoutReuse` | aster-cli-kit/src/mcp.rs:135-146 | in every interleaving each call is in exactly one of four states: running, answered once, cancelled and never answered, aborted at end of input |
| `Mcp.DuplicateRefused` | aster-cli-kit/src/mcp.rs:276-298 | a second call under a running call's ID is refused and disturbs nothing |
| `Mcp.StaleTaskAnswers` | aster-cli-kit/src/mcp.rs:299-315 | a cancelled task past its last await takes a later call's entry, and its answer is sent |
| `Mcp.UnsafeWithReuse` | aster-cli-kit/src/mcp.rs:135-146 | every script that reuses a cancelled ID has an interleaving at whose end the answer of a cancelled call has been sent |
| `Mcp.ReuseWitness` | aster-cli-kit/src/mcp.rs:135-146 | calling, cancelling and calling again under any ID is such a script |
| `Mcp.AnsweredExactlyWithReuse` | aster-cli-kit/src/mcp.rs:273-315 | some run sends the answer of a cancelled call if and only if the script reuses a cancelled ID |
| `Mcp.SafeExactlyWithoutReuse` | aster-cli-kit/src/mcp.rs:135-146 | all interleavings of a script are safe if and only if it never reuses a cancelled ID |
| `Mcp.EveryCallSettles` | aster-cli-kit/src/mcp.rs:260-264 | once input has ended and every task has, each call was answered exactly once, cancelled or aborted |
| `McpLaws.RunAccounted` | aster-cli-kit/src/mcp.rs:226-257 | in every run the calls read are exactly those started as tasks and those refused, and the other requests read are the direct answers sent |
| `McpLaws.CallRead` | aster-cli-kit/src/mcp.rs:273-315 | a call under a free ID starts a task and registers it, and under a registered ID is refused |
| `McpLaws.CancelRead` | aster-cli-kit/src/mcp.rs:135-146 | a cancellation takes exactly its call out of the registry, answers nothing and makes its task abortable |
| `McpLaws.InputEnds` | aster-cli-kit/src/mcp.rs:260-264 | at end of input exactly the registered calls are taken out and become abortable |
| `McpLaws.CallAnswers` | aster-cli-kit/src/mcp.rs:299-315 | a registered call whose tool is done answers once and frees its ID |
| `McpLaws.ComesToRest` | aster-cli-kit/src/mcp.rs:260-264 | after the end of input every state can be brought to one in which every task has ended |
| `Jobs.PathForward` | aster-exec/src/contract.rs:217-236 | along any path of the state graph states move forward and a terminal state is only at the end |
| `Jobs.TransitionsExactly` | aster-exec/src/contract.rs:217-236 | a state may follow another if and only if that one is not terminal and it is one level on, Failed or Lost |
| `Jobs.JobStore.Transition` | aster-exec/src/state.rs:132-159 | only moves of the state graph are stored, a failed write stores nothing, and the history stays a path |
| `Jobs.JobStore.AdvanceOutput` | aster-exec/src/state.rs:161-171 | the output cursor never moves back, never moves once the job is over, and truncation is remembered |
| `Spool.Spool.Append` | aster-exec/src/spool.rs:124-148 | the stored frames are numbered, at most 4096 bytes each, and hold the longest prefix of everything received that fits the budget; truncation is marked exactly when something was cut |
| `Spool.Spool.Page` | aster-exec/src/spool.rs:154-200 | a page is whole frames from the cursor, ends where the charge says, and is the end of the file exactly when the job is over and nothing is left |
| `Spool.PageShape` | aster-exec/src/spool.rs:154-200 | a page makes progress, fits its budget unless it is one frame, and could not have taken one more |
| `Spool.PagesReadEverything` | aster-exec/src/spool.rs:154-200 | following the cursor reads every frame once, in order, for every page size |
| `Pages.PageWithinBudget` | aster-exec/src/contract.rs:559-589 | a page whose frames, each charged its bytes plus 96, fit a budget B encodes to at most 4B/3 + 1024 bytes |
| `Pages.ServedPageWithinBudget` | aster-exec/src/contract.rs:559-589 | every page the spool serves meets that bound |
| `Pages.ServedPageWithinRatio` | aster-exec/src/contract.rs:34-36 | a served page of no frame or of several is within 4/3 of its budget, and a page of one frame within 4/3 of its bytes plus 112 |
| `Pages.ServedPageExactly` | aster-exec/src/contract.rs:34-36 | a served page exceeds 4/3 of its budget if and only if it is a single frame whose encoded size, by a closed formula, does |
| `Pages.FullFrameExceeds` | aster-exec/src/contract.rs:34-36 | a page of one full frame served for the smallest budget exceeds 4/3 of it |
| `PageLaws.PageIsJson` | aster-exec/src/contract.rs:238-261 | a page's text is the compact JSON of its frames, cursor and flags |
| `PageLaws.PageReads` | aster-exec/src/contract.rs:43-58 | a page's text parses to that object, and each body decodes to the bytes of its frame |
| `PageLaws.Base64RoundTrip` | aster-exec/src/contract.rs:43-58 | decoding base64, by the alphabet of RFC 4648, undoes encoding |
| `SpoolFile.ReadWritten` | aster-exec/src/spool.rs:33-86 | a written frame is read back whatever follows it |
| `SpoolFile.FrameLayout` | aster-exec/src/spool.rs:33-86 | a written frame is `AXO1`, the length, the number, the stream, the checksum and the payload, at fixed offsets |
| `SpoolFile.ReadIsWritten` | aster-exec/src/spool.rs:33-86 | bytes are read as a frame only if they are what that frame is written as |
| `SpoolFile.ReopenCommitted` | aster-exec/src/spool.rs:91-122 | reopening at a committed cursor recovers exactly the committed frames whatever bytes come after |
| `SpoolFile.CrashKeepsPublished` | aster-exec/src/spool.rs:91-122 | a crash in the middle of an append loses no published frame |
| `SupervisorRuns.ResultIsTerminal` | aster-exec/src/linux_supervisor.rs:47-55 | every result is terminal and reachable from Running; it names a stop reason exactly when there is one, which then alone decides it; it is Succeeded exactly without one and after a successful exit |
| `SupervisorRuns.DrainShape` | aster-exec/src/linux_supervisor.rs:97-115 | draining takes chunks in order and reports the channel closed only when everything sent was taken |
| `SupervisorRuns.IterateKeeps` | aster-exec/src/linux_supervisor.rs:370-410 | every round keeps the first stop reason, the exit status, the receipts and the signals given |
| `SupervisorRuns.LoopEnds` | aster-exec/src/linux_supervisor.rs:370-410 | the loop ends only after the exit was observed, the payload was gone and every chunk was taken |
| `SupervisorRuns.CancelReceiptDecides` | aster-exec/src/linux_supervisor.rs:167-191 | at any point after a cancel receipt that does not say already terminal, the result the loop would report is never succeeded or failed by its own exit |
| `SupervisorRuns.LoopKeeps` | aster-exec/src/linux_supervisor.rs:370-410 | at any point of any run, ended, failed or going, the first stop reason, the exit status, the receipts and the signals are kept |
| `SupervisorRuns.KillsAreDue` | aster-exec/src/linux_supervisor.rs:382-405 | at any point of any run a job has been signalled only with a stop reason, and killed only for memory or after its grace period |
| `StopLaws.DrainExactly` | aster-exec/src/linux_supervisor.rs:97-115 | output is taken while there is a chunk and the spool takes it, at most 64 times, and the first receive without one says whether the channel is closed |
| `StopLaws.IterationExactly` | aster-exec/src/linux_supervisor.rs:370-408 | a round that does not fail leaves the first stop reason among cancel, memory and deadline, its signal, a kill when something is left after the grace period, the receipt and the exit status; the loop is left exactly when exited, empty and drained |
| `StopLaws.FailsExactly` | aster-exec/src/linux_supervisor.rs:370-408 | a round fails if and only if one of the system calls it makes in that state fails |
| `StopLaws.StoppedExactly` | aster-exec/src/linux_supervisor.rs:382-395 | a run that has not failed has a stop reason if and only if some round saw an accepted cancel, a memory kill or the deadline gone by, and it is the first such round's, with 5 seconds of grace unless the request names at most 60 |
| `StopLaws.OverrunsAreKilled` | aster-exec/src/linux_supervisor.rs:396-401 | in every run that has not failed, what is still there after the grace period of the stop reason is killed |
| `StopLaws.SucceedsExactly` | aster-exec/src/linux_supervisor.rs:47-55 | an ended run is reported as succeeded if and only if no round stopped the job and the first exit status seen is a success |
| `Supervisor.Supervisor.DrainOutput` | aster-exec/src/linux_supervisor.rs:97-115 | at most 64 chunks, each appended once in channel order and its cursor published |
| `Supervisor.Supervisor.HandleControl` | aster-exec/src/linux_supervisor.rs:167-191 | only the first cancel sets the stop reason; an excessive grace or a failed signal sets nothing |
| `Supervisor.Supervisor.WatchJob` | aster-exec/src/linux_supervisor.rs:378-405 | the exit, memory, deadline and grace checks update the variables as the loop's function says |
| `Supervisor.Supervisor.MainLoop` | aster-exec/src/linux_supervisor.rs:370-410 | the loop ends, fails or goes on exactly as its function says, and leaves the variables it says |
| `Supervisor.Supervisor.Run` | aster-exec/src/linux_supervisor.rs:235-435 | a finished run's states are Accepted, Starting, Running and the one reported: Succeeded exactly when no stop was set and the exit was a success, Failed as `nonzero_exit` exactly when it was not, and Cancelled, TimedOut and Failed as `memory_limit` exactly for the three stop reasons; all output was appended in channel order |
| `NameSets.SortedUniqueEffect` | aster-config/src/lib.rs:208-218 | stored services are strictly ascending and exactly the given names |
| `NameSets.SortedUniqueCanonical` | aster-config/src/lib.rs:208-218 | two lists are stored alike if and only if they hold the same names |
| `NameSets.SetPublishedServices` | aster-config/src/lib.rs:208-218 | inserting name by name stores the sorted set |
| `ConfigLaws.RoundTripIsExact` | aster-config/src/lib.rs:62-172 | a configuration's table reads back, but for the version stamp, if and only if no kept key is the program's own |
| `ConfigLaws.SavedReloadsExactly` | aster-config/src/lib.rs:252-276 | saving and loading gives a configuration back with services sorted if and only if its integers can be stored, its names are valid and no kept key is the program's own |
| `ConfigLaws.BadNameSaved` | aster-config/src/lib.rs:387-408 | a name with an upper-case letter can be saved and then does not load |
| `ConfigLaws.KnownKeyKept` | aster-config/src/lib.rs:73-75 | so can a kept key that is the program's own |
| `ConfigLaws.ParsedSettled` | aster-config/src/lib.rs:252-276 | only formats 0 and 1 are accepted, and every parsed configuration has the current version, valid names, sorted unique services and no known key among the kept ones |
| `ConfigLaws.ParseReachesFixpoint` | aster-config/src/lib.rs:252-276 | a parsed configuration can be saved, is saved in format 1, and parses to itself |
| `ConfigMigration.UnknownTopKept` | aster-config/src/lib.rs:73-75 | an unknown top-level key is saved with the value it was read with, and none appears |
| `ConfigMigration.UnknownServiceKept` | aster-config/src/lib.rs:78-91 | so is an unknown key of the service table |
| `ConfigMigration.UnknownProfileKept` | aster-config/src/lib.rs:144-145 | so is an unknown key of a profile, except the two flat handle keys of format 0, which never are |
| `ConfigMigration.ProfilesKept` | aster-config/src/lib.rs:295-353 | no profile appears or disappears |
| `ConfigMigration.UnknownHandleLost` | aster-config/src/lib.rs:158-164 | for every file, of the entries a profile's handle is read with exactly the three known keys are saved, with their values, and every address entry is |
| `ConfigMigration.HandleNoteLost` | aster-config/src/lib.rs:158-164 | a file with a fourth handle key loads, and saving it drops that key |
| `ConfigMigration.MigrateText` | aster-config/src/lib.rs:328-331 | a public key or email stays exactly when it is a non-empty text |
| `ConfigMigration.MigrateList` | aster-config/src/lib.rs:332-340 | services become the non-empty trimmed pieces between commas |
| `ConfigMigration.MigratedHandleMeans` | aster-config/src/lib.rs:341-350 | a profile whose flat keys spell a handle, or none, is read after migration with exactly that handle |
| `ConfigMigration.MigratedLegacy` | aster-config/src/lib.rs:297-353 | migrating a profile in the old layout gives exactly the table the new layout writes |
| `ConfigMigration.FormatsAgree` | aster-config/src/lib.rs:294-353 | the old and the new layout of a configuration parse to the same configuration |
| `ConfigMigration.MigrateTwice` | aster-config/src/lib.rs:252-270 | migrating a profile twice equals migrating it once if and only if it has no handle and no services, so the version stamp is needed |
| `ConfigMigration.MigrateTable` | aster-config/src/lib.rs:300-353 | the loop over profiles computes the migration, or refuses a profile that is not a table |
| `ConfigReading.NothingGiven` | aster-config/src/lib.rs:62-91 | an empty file and one that only declares format 1 are the default configuration, given outright |
| `ConfigReading.ServiceSwitches` | aster-config/src/lib.rs:78-91 | both switches of the service are on unless the file says false, and node and relay are what it says |
| `ConfigReading.ActiveProfile` | aster-config/src/lib.rs:66-67 | the active profile is the file's, or `default` |
| `ConfigReading.ProfileDefaults` | aster-config/src/lib.rs:95-145 | what a profile is read with for each setting the file does not name, and which eight keys are its texts |
| `ConfigReading.NamesExactly` | aster-config/src/lib.rs:278-291 | a profile name is 1 to 64 lower-case letters, digits, hyphens and underscores |
| `ConfigReading.FormatsExactly` | aster-config/src/lib.rs:252-270 | only formats 0 and 1 are read, and a file that declares none is format 0 |
| `ConfigReading.ReadExactly` | aster-config/src/lib.rs:62-172 | a table of format 1 is read if and only if every known key holds what it may, by a table of kinds, at the top, in the service and in every profile, and the names are valid |
| `ConfigReading.WordsExactly` | aster-config/src/lib.rs:147-172 | a signer other than `local` is refused; the handle read has the name and one of the two states the file spells |
| `ConfigReading.PaddedList` | aster-config/src/lib.rs:332-340 | a comma-separated list of names in any white space is read as the names that are not empty |
| `ConfigReading.FlatHandleExactly` | aster-config/src/lib.rs:341-350 | a profile of format 0 has a handle if and only if it says a name and a status other than `unregistered`; the handle is what it says |
| `ConfigReading.FlatTextsExactly` | aster-config/src/lib.rs:328-340 | a public key, email or list of services of format 0 stays if and only if it is a text that is not empty |
| `ConfigReading.FlatServiceExactly` | aster-config/src/lib.rs:303-320 | so do node and relay of the service, and every other key stays as it is |
| `ConfigStore.StepKeeps` | aster-config/src/lib.rs:358-408 | every step of every process, failure and crash keeps the lock exclusive, the file whole and each version the change of the one before |
| `ConfigStore.FileIsSerial` | aster-config/src/lib.rs:358-408 | what an unlocked reader finds is the committed changes applied one at a time in lock order, each once |
| `ConfigStore.FailureLeavesNoTrace` | aster-config/src/lib.rs:355-408 | in every interleaving an update that failed before the rename is not in the history and one that succeeded is; without power loss one that reported an error is in it if and only if syncing the directory failed |
| `ConfigStore.LateFailure` | aster-config/src/lib.rs:386-408 | a run in which an update reports an error and its change is in the file |
| `ConfigStore.LateFailureUndone` | aster-config/src/lib.rs:386-408 | a power loss after such an error can bring the old file back |
| `ConfigStore.SuccessSurvives` | aster-config/src/lib.rs:382-408 | an update that returned success stays in the file's history through every later step, power loss included |
| `ConfigStore.UpdateExactly` | aster-config/src/lib.rs:358-408 | an update that finds the lock free succeeds if and only if the file reads, the change applies, its result can be written and no call fails; it always gives the lock back and otherwise leaves the file alone unless only the last sync failed |
| `ConfigStore.MissingOrTorn` | aster-config/src/lib.rs:240-250 | a missing file is changed as the default configuration, given outright, is; a torn one is not changed and the update fails |
| `Shell.SplitIsExact` | aster-cli/src/contract.rs:589-642 | a line splits into given words if and only if it is a list of valid tokens that mean those words |
| `Shell.RefusalIsExact` | aster-cli/src/contract.rs:603-634 | a line is refused with an error if and only if whole tokens are followed by the unfinished token that error names |
| `Shell.BackslashRules` | aster-cli/src/contract.rs:603-634 | what a backslash and the character after it mean outside quotes, in single quotes and in double quotes, for every character |
| `Shell.SplitUndoesQuoting` | aster-cli/src/contract.rs:589-642 | any list of words, each single- or double-quoted, empty words included, joined by single spaces, splits back into itself |
| `Shell.SplitCommand` | aster-cli/src/contract.rs:592-642 | the character loop computes the splitter's function |
| `Shell.SingleQuoted` | aster-cli/src/contract.rs:603-612 | the inner loop takes the text up to the closing single quote, or finds none |
| `Shell.DoubleQuoted` | aster-cli/src/contract.rs:613-630 | the inner loop takes the text up to the closing double quote with its escapes undone, or finds none |
| `Retry.RetryDelay` | aster-cli/src/exec.rs:421-445 | a failure is transient exactly when its typed error is retryable with a code that trying again can mend, or it has none and nothing could be reached; the wait is 250 ms without a typed error, 100 ms when the error asks for none, and otherwise what it asks for, brought into 10 ms to 1 s |
| `Retry.RetryObservation` | aster-cli/src/exec.rs:383-416 | every attempt but the last failed transiently in time, the last decides the result, a cut-off returns the last transient failure, and for any clock and failures there are at most 1 + budget/10 ms attempts |

## Left out

- Error messages and the positions they name; a failure is only a failure.
- IEEE arithmetic: floats are shortest decimals, and `f.trunc() as i128` in the manifest is a parameter.
- Hashing, Ed25519 and BLAKE3: hashes are parameters and signatures are not modelled.
- Conversion of Rust structures to JSON (`from_value`), and TOML syntax: a configuration file is a table.
- ConfigLaws.RoundTripIsExact: does not model that deserialisation also accepts an array for a handle or a table for a unit variant, because the program never writes them.
- redb: a transaction is one step that commits or does not.
- MCP protocol versions, tool listing, failing reads and writes of the transport, and the shape of answers.
- Mcp.SafeWithoutReuse: models the registry and tasks on values, as steps, because they run concurrently; there is no Dafny method for the server loop.
- ConfigStore.FileIsSerial: models updates as interleaved steps on values for the same reason; a `toml.tmp` left by a failed update is only ever truncated and rewritten.
- Supervisor.Supervisor.Run: takes one clock reading per check and leaves out process start, sockets, cgroups, the audit outcome and partial writes of a failing append; a receipt counts once it is decided, even if its reply cannot be written.
- Retry.RetryObservation: leaves out the value an attempt is given as its remaining time.
- Admission beyond the ledger: request validation, authorization, the helper, and settling of lost jobs.
- Trust, enrolment and keys (command-line steps over a credential store and delegation code), the FFI (declarations), and output styling and service definitions (user interface and wire types).
