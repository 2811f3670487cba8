# GADGET-2 initial-condition writer, in Dafny

This project models the part of pygadgettools that writes GADGET-2 initial-condition files. These are binary snapshots in "format 1": little-endian, Fortran-unformatted records, each framed as `[u32 count][payload][u32 count]`. Alongside the writer it models a few small helpers that the package shares.

- **Records.** `Header()` and `Body(npart)` in `initial_condition/write.py` are modelled in `IcRecords`. The legacy `Body` of `initial_condition/io.py` is modelled in `IcLegacy`, including its cascade of optional fields: tstp → endt → acce → pot → hsml → nh → ne → rho.
- **Checks.** `initial_condition/check.py` is modelled in `IcCheck`:
  - `check_dimension` and `check_header`, with its four ordered checks;
  - the stub `check_body` and the stub `check_if_file_exists`;
  - `check_consistency`, covering shapes against N and G, then id uniqueness.
- **Writer.** `IcWrite` models `write_header`, `write_block`, `write_body` and `dump_ic`. The output file is the class `IcFiles.IcFile`, whose `bytes` grow with every `write` and whose `tell()` is `|bytes|`. Each method is proved against a function that describes what it writes and how it ends. The lemmas then prove the following about those functions:
  - the 264-byte header layout, field by field;
  - the absolute-position quirk of the padding and of the closing check;
  - the five body records;
  - that the checks run before anything is written;
  - that a written snapshot reads back record by record as its payloads exactly when it holds N masses.
- **Example.** `IcExample` takes the scenario of `initial_condition/example.py` (npart = [1,2,0,0,0,0]) through `dump_ic`.
- **Legacy writer.** `IcLegacy` also models the legacy `write_header` of `io.py`.
- **Helpers.**
  - `SanityCheck` models `pygadgettools/internals/sanity_check.py`.
  - `SnapshotNames` and `LegacyFileName` model the two snapshot path builders.
  - `PyStrings` holds the Python string operations they use: `str`, `zfill`, `os.path.join(d, '')` and `join`.

Python exceptions are values of `Outcomes.Error`. Each operation returns `Pass` or `Fail(error)`, or a `Result`. Where the file is involved, the operation also returns the bytes written before the exception. Floats are `real` values, packed by a `FloatCodec` parameter. The parameter is uninterpreted apart from its widths: 8 bytes for `<d` and 4 bytes for the `astype('f')` narrowing. So lengths and offsets are proved exactly, while float bit patterns are not modelled.

Where the code and its documentation disagree, the model follows the code:
- `check_body` accepts every body, even though its docstring promises a check.
- `check_if_file_exists` always answers "no", so `dump_ic` truncates an existing file.
- The header padding uses the absolute file position, not the position within the header.
- A `Body` built without gas has no `u` attribute at all, so `dump_ic` writes the header record and then fails inside `write_body`.
- `check_consistency` passes a bare number as the expected shape of `mass`. NumPy compares that number with the shape tuple entry by entry, so:
  - a 1-D `mass` passes exactly when its length is N;
  - a 0-D `mass` passes, and `write_body` then frames its single value with the count 4N, so unless N = 1 the file does not read back (see Findings);
  - two or more dimensions raise ValueError because the truth value is ambiguous.

## Model

| member | source | states |
|---|---|---|
| Bytes.U32LE | initial_condition/write.py:204 | `struct.pack('<I', v)` is four bytes |
| Bytes.U32RoundTrip | initial_condition/write.py:204 | a `<I` packing decodes back to the packed count |
| Bytes.U32Canonical | initial_condition/write.py:245 | every 4 bytes are the `<I` packing of what they decode to, so a count field has one encoding |
| Bytes.I32RoundTrip | initial_condition/write.py:221-222 | a `<i` packing of a flag decodes back to the flag, negative values included |
| Bytes.EncodeAllAt | initial_condition/write.py:212-218 | element i of a packed array (`<6d`, `<6I`) sits at bytes w·i..w·i+w and is the packing of that element |
| Bytes.U32sAt | initial_condition/write.py:205-211 | entry i of a `<6I` packing decodes back to count i |
| Bytes.I32LE | initial_condition/write.py:221-222 | `struct.pack('<i', v)` is four bytes |
| Bytes.Block | initial_condition/write.py:293-295 | a record is its payload with 8 bytes of counts around it |
| Bytes.BlockRoundTrip | initial_condition/write.py:276-297 | a record framed with its payload's own length reads back as that payload, and the bytes after it are untouched |
| Bytes.BlockMismatchUnreadable | initial_condition/write.py:276-297 | a record whose count differs from its payload length does not read back as that payload |
| Bytes.FramedReadBack | initial_condition/write.py:304-308 | a sequence of records, each framed with its own length, reads back as exactly the payload sequence |
| Bytes.FramedThen | initial_condition/write.py:304-308 | well-framed records in front of other bytes read back as their payloads followed by what those bytes read as, and spoil nothing behind them |
| Bytes.FramedAppend | initial_condition/write.py:304-308 | writing two lists of well-framed records one after the other is framing their concatenation |
| Bytes.MiscountedRecord | initial_condition/write.py:293-295 | behind well-framed records, a record counted `nbytes` reads, if the file reads at all, as `nbytes` bytes whatever its payload |
| NdArrays.Filled | initial_condition/write.py:104-107 | `np.zeros(shape)` has the requested shape and every element zero |
| IcFiles.IcFile.Open | initial_condition/write.py:351-352 | a file opened with mode 'w' is empty and open |
| IcFiles.IcFile.Write | initial_condition/write.py:276-297 | `IcFile.write` appends its data and changes nothing already written |
| IcFiles.IcFile.Close | initial_condition/write.py:366 | closing keeps the bytes written |
| IcRecords.NewHeader | initial_condition/write.py:31-46 | `Header()` has six zero counts in each array, six masses, and one file per snapshot |
| IcRecords.NewBody | initial_condition/write.py:95-112 | `Body(npart)`: IndexError for an empty npart; ValueError "There are no particles !" when the sum is 0; ValueError "negative dimensions are not allowed" when N or G is negative; otherwise zero-filled N×3 pos and vel, N ids, N masses, and a G-element u exactly when G ≠ 0 |
| IcCheck.CheckDimension | initial_condition/check.py:19-22 | passes iff the shape equals dim; otherwise raises "Unexpected dimensions" |
| IcCheck.CheckBareDimension | initial_condition/check.py:99 | shape compared with a bare N: passes iff the shape is (N,) or (); a 1-D mismatch raises "Unexpected dimensions" |
| IcCheck.CheckIfFileExists | initial_condition/check.py:27-32 | the stub never reports an existing file |
| IcCheck.CheckHeader | initial_condition/check.py:35-59 | `check_header` raises only its four errors, and passes only with a positive file count and six masses |
| IcCheck.SumOfCounts | initial_condition/check.py:42-43 | a sum of unsigned counts is zero iff no particle type has particles |
| IcCheck.CheckHeaderAccepts | initial_condition/check.py:35-59 | `check_header` passes iff both count arrays have particles, no mass is negative, NumFilesPerSnapshot ≥ 1 and all three arrays have six entries |
| IcCheck.CheckHeaderFirstFailure | initial_condition/check.py:42-56 | the first failing check decides the error: no particles, then a negative mass, then the file count, then the shapes |
| IcCheck.NewHeaderRejected | initial_condition/check.py:42-43 | a fresh `Header()` is rejected for having no particles |
| IcCheck.CheckBody | initial_condition/check.py:63-74 | `check_body` accepts every body |
| IcCheck.CheckConsistency | initial_condition/check.py:78-111 | `check_consistency` raises only IndexError, a shape error, AttributeError for `u` or "IDs are not unique", and passes only with N ids |
| IcCheck.CheckConsistencyFixed | initial_condition/check.py:99 | with `mass` checked against (N,), the check passes iff the as-written one does and there are N masses |
| IcCheck.DistinctCount | initial_condition/check.py:107-108 | `len(np.unique(ids)) == len(ids)` iff no id repeats |
| IcCheck.CheckConsistencyAccepts | initial_condition/check.py:78-111 | `check_consistency` passes iff pos and vel are N×3, mass is (N,) or (), id is (N,), u exists with G entries when G ≠ 0, and the ids are pairwise distinct |
| IcCheck.DuplicateIdsRejected | initial_condition/check.py:107-108 | once the shapes agree, the body is rejected iff an id repeats, and the error is "IDs are not unique" |
| IcCheck.FreshBodyRejected | initial_condition/check.py:107-108 | a `Body(npart)` with two or more particles fails `check_consistency` until its ids are set |
| IcWrite.HeaderFields | initial_condition/write.py:205-237 | the named header fields occupy exactly 168 bytes |
| IcWrite.HeaderWrite | initial_condition/write.py:180-250 | `write_header` always starts with the 256 preamble, ends normally iff the arrays have six entries and it starts at offset ≤ 88, and raises only IndexError or "Header has wrong format" |
| IcWrite.WriteHeaderFront | initial_condition/write.py:205-222 | the first six field writes append the counts, masses, time, redshift and two flags; a short NumPart_ThisFile or MassTable raises IndexError before the pack that reads it |
| IcWrite.WriteHeaderBack | initial_condition/write.py:223-237 | the last nine field writes append NumPart_Total, two flags, four cosmology floats and two flags |
| IcWrite.WriteHeaderFields | initial_condition/write.py:205-237 | the fifteen field writes append exactly the field bytes, or stop with IndexError at the first short array |
| IcWrite.WritePadding | initial_condition/write.py:242-244 | the padding loop appends `260 - tell()` zero bytes, none when that is negative |
| IcWrite.WriteHeaderBlock | initial_condition/write.py:204-246 | preamble, fields, `260 - tell()` zero bytes of padding and postamble are appended; reports whether `tell() - 8 == 256` |
| IcWrite.WriteHeader | initial_condition/write.py:180-250 | `write_header` appends the header record and raises "Header has wrong format" iff the closing position check fails |
| IcWrite.ShortHeaderTruncates | initial_condition/write.py:205-229 | a header array with fewer than six entries raises IndexError after 4, 28 or 100 bytes |
| IcWrite.ShortHeaderPrefix | initial_condition/write.py:204-229 | what a short header leaves is a prefix of the record of a complete header that agrees on the fields written |
| IcWrite.HeaderAcceptedIff | initial_condition/write.py:242-247 | the record is 176 bytes plus the padding, and the check passes iff the header starts at offset ≤ 88 |
| IcWrite.HeaderAtFileStart | initial_condition/write.py:204-247 | at offset 0 the record is 264 bytes: preamble 256, 168 field bytes, 88 zero bytes, postamble 256, with no error |
| IcWrite.HeaderAfterOffset | initial_condition/write.py:242-247 | from offset 0 < s ≤ 88 the record is 264 − s bytes and passes; beyond 88 it is 176 bytes and raises |
| IcWrite.HeaderFieldsLayout | initial_condition/write.py:205-237 | each named field occupies its fixed offset and width within the 168 field bytes |
| IcWrite.HeaderCountsReadBack | initial_condition/write.py:204-229 | preamble and postamble decode to 256, and both count arrays decode back entry by entry from offsets 4 and 100 |
| IcWrite.HeaderFlagsReadBack | initial_condition/write.py:221-237 | the six i32 flags decode back from offsets 92, 96, 124, 128, 164 and 168 |
| IcWrite.HeaderFloatsAtOffsets | initial_condition/write.py:212-235 | the masses sit at 28 + 8i, and time, redshift and the four cosmology floats at 76, 84, 132, 140, 148 and 156 |
| IcWrite.WriteBlock | initial_condition/write.py:276-297 | `write_block` appends count, payload, count; a count outside u32 raises struct.error with nothing written |
| IcWrite.Blocks | initial_condition/write.py:304-308 | records written in order end normally only when every count can be packed, and otherwise raise struct.error |
| IcWrite.BodyWrite | initial_condition/write.py:299-308 | `write_body` raises only IndexError, AttributeError for `u` or struct.error, writes nothing for the first two, and ends normally only with `u` present |
| IcWrite.BlocksStep | initial_condition/write.py:304-308 | writing records in order: the next record is framed and the rest follow, or a count that cannot be packed stops everything |
| IcWrite.WriteBlockStep | initial_condition/write.py:304-308 | one `write_block` call of `write_body` advances through its list of records |
| IcWrite.WriteBody | initial_condition/write.py:257-317 | `write_body` appends the pos, vel, id, mass and u records with counts 12N, 12N, 4N, 4N and 4G; IndexError when pos has no column 0; AttributeError when u is missing |
| IcWrite.WriteRecords | initial_condition/write.py:304-308 | the five `write_block` calls append the pos, vel, id, mass and u records with counts 12N, 12N, 4N, 4N and 4G, stopping at the first count that cannot be packed |
| IcWrite.DumpIc | initial_condition/write.py:331-367 | `dump_ic` opens, runs the three checks, writes header and body, and closes only on success |
| IcWrite.Dump | initial_condition/write.py:331-367 | nothing is written and nothing succeeds unless all three checks pass; a success has `u` and at least the 264-byte header |
| IcWrite.DumpRejects | initial_condition/write.py:351-361 | an invalid header or inconsistent body leaves the freshly opened file empty, with the check's error |
| IcWrite.BodyWriteLayout | initial_condition/write.py:299-308 | a body with N×3 positions and u is written as its five framed records in order |
| IcWrite.DumpLayout | initial_condition/write.py:331-367 | a writable snapshot is the 264-byte header record followed by the five body records, and `dump_ic` ends normally |
| IcWrite.PayloadSizes | initial_condition/write.py:299-308 | in a writable snapshot the payloads are 12N, 12N, 4N, 4M and 4G bytes, with 1 ≤ M ≤ N masses, after the 256-byte header payload |
| IcWrite.DumpFramed | initial_condition/write.py:276-308 | in every written snapshot the header, pos, vel, id and u records are framed by their own payload lengths and the mass record by 4N; with N masses every record is framed by its own length |
| IcWrite.DumpReadsBack | initial_condition/write.py:276-308 | a written snapshot reads back as its six payloads (header fields with padding, then pos, vel, id, mass, u) iff it has N masses |
| IcWrite.FixedCheckReadsBack | initial_condition/write.py:331-367 | with `mass` checked against (N,), every snapshot that passes the checks and whose counts can be packed is written whole and reads back as its six payloads |
| IcWrite.DumpSize | initial_condition/write.py:299-308 | a written snapshot is 304 + 28N + 4M + 4G bytes for M masses, so 304 + 32N + 4G with N masses |
| IcWrite.DumpGasFreeBody | initial_condition/write.py:299-308 | with no gas and no u attribute, the header record is written and `write_body` then raises AttributeError |
| IcExample.ExampleWritable | initial_condition/example.py:7-41 | the example's header and body pass every check |
| IcExample.ExampleDump | initial_condition/example.py:7-41 | the example writes 404 bytes, reads back as its payloads, and its body payloads are 36, 36, 12, 12 and 4 bytes |
| IcExample.ThreeParticleDump | initial_condition/example.py:7-41 | any writable three-particle, one-gas snapshot writes 392 + 4M bytes for M masses: 404 bytes that read back with three masses, 396 bytes that do not with a 0-D mass |
| IcExample.ExampleScalarMass | initial_condition/check.py:99 | the example with a 0-D mass passes every check and writes 396 bytes that do not read back, while the check against (3,) rejects it |
| IcExample.ExampleDuplicateIds | initial_condition/check.py:107-108 | the example with a repeated id writes nothing and raises "IDs are not unique" |
| IcExample.ExampleUnfilledHeader | initial_condition/check.py:42-43 | the example body with an unfilled header writes nothing and raises "No particles in header !" |
| IcLegacy.ClosureIsLeast | initial_condition/io.py:98-148 | the allocated fields contain the request, are downward closed in the cascade order, and are the least such set |
| IcLegacy.IntendedBody | initial_condition/io.py:84-148 | the intended constructor succeeds iff npart is non-empty and N, G ≥ 0, fails with the negative-dimensions ValueError otherwise, and allocates exactly the closure |
| IcLegacy.BodyAsWritten | initial_condition/io.py:84-148 | as written, construction succeeds iff the intended one does and tstp, endt or acce is requested, and then builds the same body |
| IcLegacy.NewBody | initial_condition/io.py:84-148 | the legacy `Body` as written: intended allocation, or UnboundLocalError for `pot` |
| IcLegacy.NewBodyWithPot | initial_condition/io.py:84-148 | with `pot` a parameter, the constructor allocates the base arrays and exactly the closure of the requested fields |
| IcLegacy.Allocate | initial_condition/io.py:88-148 | base arrays (ValueError on negative sizes), then the cascade |
| IcLegacy.EnableChain | initial_condition/io.py:98-148 | the chain of `if`s allocates zero arrays exactly for the fields at or below the highest requested one, or fails on the unbound `pot` |
| IcLegacy.EnableUpper | initial_condition/io.py:98-123 | the tstp, endt and acce steps: each set flag switches on every flag below it, binds `pot` to True, and allocates its own field |
| IcLegacy.EnableLower | initial_condition/io.py:125-148 | the pot, hsml, nh, ne and rho steps add exactly the fields at or below the highest flag still set, each a zero array of its extent |
| IcLegacy.BodyAllocation | initial_condition/io.py:88-148 | a built body has N×3 pos and vel, N id and mass, G u, the closure as optional fields, each of its extent (N or G) |
| IcLegacy.AsWrittenAllocatesPot | initial_condition/io.py:98-130 | any successful legacy body holds rho, ne, nh, hsml, pot and acce |
| IcLegacy.TstpAllocatesAll | initial_condition/io.py:98-148 | requesting tstp allocates all eight optional fields |
| IcLegacy.PotUnboundIff | initial_condition/io.py:84-125 | construction fails on `pot` iff none of tstp, endt and acce is requested; otherwise it is the intended body |
| IcLegacy.PotUnboundExample | initial_condition/io.py:125 | npart = [1,2,0,0,0,0] with only rho requested fails as written, while the intended constructor allocates just rho |
| IcLegacy.NoZeroParticleCheck | initial_condition/io.py:88-95 | zero particles are accepted: the arrays are simply empty |
| IcLegacy.WriteHeader | initial_condition/io.py:181-252 | the legacy `write_header` as written raises NameError for `struct` with nothing written |
| IcLegacy.WriteHeaderWithStruct | initial_condition/io.py:206-250 | with `struct` imported: the same record as write.py; a failed check raises TypeError from its own message |
| IcLegacy.WriteHeaderFixed | initial_condition/io.py:206-250 | with `struct` imported and the message fixed: the same record; a failed check exits |
| IcLegacy.MissingStructImport | initial_condition/io.py:1-3 | as written nothing is written, where the fixed writer writes the 264-byte record |
| IcLegacy.LegacyHeaderSameLayout | initial_condition/io.py:206-250 | the fixed legacy record equals write.py's byte for byte, and both pass iff the arrays are indexable and the start is ≤ 88 |
| IcLegacy.MessagePrecedence | initial_condition/io.py:248-250 | past offset 88 the check's message raises TypeError instead of reaching `sys.exit` |
| PyStrings.Str | pygadgettools/names/filename.py:32 | `str(n)` is a non-empty digit string with no leading zero unless n = 0 |
| PyStrings.StrRoundTrip | pygadgettools/names/filename.py:32 | `int(str(n)) == n` |
| PyStrings.ZFill | pygadgettools/names/filename.py:32 | `s.zfill(width)` is max(len(s), width) characters and leaves s unchanged when it is long enough |
| PyStrings.ZFillDigits | pygadgettools/names/filename.py:32 | `zfill` on digits gives max(len, width) characters: zeros, then the digits unchanged |
| PyStrings.ZFillStrRoundTrip | pygadgettools/names/filename.py:32 | a zero-padded number is still digits and reads back as the number |
| PyStrings.JoinDir | pygadgettools/names/filename.py:33 | `os.path.join(dir, '')` extends dir by at most one character and is empty iff dir is |
| PyStrings.JoinDirProperties | pygadgettools/names/filename.py:33 | `os.path.join(dir, '')` adds at most one '/', ends in '/' iff dir is non-empty, never doubles it, and is idempotent |
| PyStrings.Join | pygadgettools/internals/sanity_check.py:9 | `sep.join(xs)` starts with the first string |
| PyStrings.JoinContains | pygadgettools/internals/sanity_check.py:9 | every joined string occurs in `sep.join(xs)` |
| SanityCheck.CheckKeyword | pygadgettools/internals/sanity_check.py:8-9 | passes iff sys is authorized; otherwise KeyError with sys + " must be [" + the joined list + "]" |
| SanityCheck.MessageListsKeywords | pygadgettools/internals/sanity_check.py:9 | the KeyError message starts with the keyword, ends with ']', and names every authorized keyword |
| SanityCheck.CheckDimension | pygadgettools/internals/sanity_check.py:12-28 | `_check_dimension` as written raises NameError on every input |
| SanityCheck.MissingNumpyImport | pygadgettools/internals/sanity_check.py:25-26 | as written the shape check raises NameError even on a matching shape, where the intended check passes |
| SnapshotNames.GetFullPath | pygadgettools/names/filename.py:8-36 | the path is at least one character longer than dir, root and ext together, and holds at least `ndigits` digits |
| SnapshotNames.PathParts | pygadgettools/names/filename.py:32-36 | the path is dir' + root + numbering + ext; the numbering is max(len(str(n)), ndigits) digits with zeros before str(n), and reads back as n |
| SnapshotNames.DirectorySeparator | pygadgettools/names/filename.py:33-34 | the path starts with dir followed by exactly one '/', kept if already present |
| SnapshotNames.DefaultPaths | pygadgettools/names/filename.py:8-34 | with the defaults, snapshot 7 gives "./snapshot_007" |
| LegacyFileName.GetFullPath | pygadgettools/filename.py:9-24 | `getFullPath` equals `get_full_path` for every argument |

## Left out

- Float encodings: the bit patterns of `<d` and `astype('f')` are an uninterpreted `FloatCodec` with fixed widths. NaN handling, rounding and overflow on narrowing are not modelled.
- Header integer widths: header counts are typed `uint32` and flags `int32`, so struct.error for an out-of-range header integer is not modelled. The record counts of `write_block` are computed, and their struct.error is modelled.
- Ids are typed `uint32`, so the `astype('I')` conversion of float ids is not modelled.
- numpy's acceptance of float dimensions (`np.zeros` of a float64 N) is taken as integer sizes.
- `print` output, `print_summary` and `pprint` are left out because they are console I/O.
- The `format_output` parameter is ignored because only binary output exists.
- `destination_file` names a file the model never opens: paths and the file system are outside the model.
- The legacy `Header` class of `io.py` (lines 8-43) is live code identical to write.py's `Header`, so `IcRecords.NewHeader` stands for both.
- The legacy `dump_ic` of `io.py` (lines 332-364) is left out: its first call, `check_if_file_exists`, is commented out (line 154), so it raises NameError before opening a file. `read_header` and the old `write_body` are commented out.
- IcRecords.NewHeader: types every count as `uint32` and every mass as `real`. In the source `NumPart_ThisFile` and `MassTable` are float64 arrays and `NumPart_Total` is an int8 array. A caller who fills `NumPart_Total` in place (the example replaces the arrays instead) wraps a count of 128 or more to a negative value, which `check_header` can let through and `struct.pack('<6I')` then rejects after 100 bytes. These dtypes and in-place filling are not modelled.
- The extended body blocks (rho, ne, nh, hsml, pot, acce, endt, tstp) are never written by `write_body`, so they have no writer here.
- SnapshotNames.GetFullPath: takes n as a natural number. Negative snapshot numbers (a sign before the zfill padding) are outside the path lemmas, though `ZFill` handles the sign.
- The file handle left open after a failed check is modelled only as `closed == false`; no resource semantics.

## Findings

| source | as written | input that shows it | evidently intended | confidence | as-written member | corrected member |
|---|---|---|---|---|---|---|
| pygadgettools/internals/sanity_check.py:25 | `np.shape` is used but numpy is never imported, so NameError is raised on every call | any x, with dim equal to the shape of x | pass iff the shape equals dim, as `check_dimension` in check.py does | not executed | SanityCheck.MissingNumpyImport | IcCheck.CheckDimension |
| initial_condition/check.py:99 | `(total_number_of_particles)` is a bare number, so a 0-D `mass` passes, and `write_body` (write.py:307) then frames its 4 bytes with the count 4N | the example with `mass` a 0-D array and N = 3: 396 bytes whose mass record does not read back | `mass` checked against the 1-tuple (N,), as `id` is on the next line | not executed | IcExample.ExampleScalarMass | IcCheck.CheckConsistencyFixed |
| initial_condition/io.py:125 | `pot` is neither a parameter nor assigned unless tstp, endt or acce is set, so `if pot:` raises UnboundLocalError | npart = [1,2,0,0,0,0] with rho=True only | `pot` is a keyword flag like the others, and the closure of the requested fields is allocated | not executed | IcLegacy.PotUnboundExample | IcLegacy.NewBodyWithPot |
| initial_condition/io.py:206 | `struct.pack` is called but io.py never imports `struct`, so `write_header` raises NameError before writing | any header, at the start of an empty file | the 264-byte header record, as write.py writes it | not executed | IcLegacy.MissingStructImport | IcLegacy.WriteHeaderFixed |
| initial_condition/io.py:249 | `'%d' % icfile.tell()-8` formats first and then subtracts 8 from a string, raising TypeError | a header started at offset 89 (with `struct` imported) | print the header length, then `sys.exit()` | not executed | IcLegacy.MessagePrecedence | IcLegacy.WriteHeaderFixed |
