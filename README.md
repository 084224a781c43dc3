# lspsuite readers of LSP `.p4` dumps, in Dafny

This project models the binary readers in `lspsuite/reader.py`. They read the `.p4` dumps
written by the LSP particle-in-cell code. A dump is a header followed by a payload. Every
number is a big-endian 4-byte word. A string is two int length prefixes followed by its bytes,
padded with zeros to a multiple of 4.

The model has seven modules.

- `Wire` holds the pure specification of the low-level readers. It gives, as functions of the
  byte stream and an offset:
  - `get_int`, `get_float` and `get_str`;
  - `get_list` over the format letters `i`, `f`, `d` and `s`;
  - the dictionary `get_dict` builds from it.
  It also holds encoders and round-trip lemmas for ints, strings and runs of them.
- `Streams` holds the class `Stream`, a byte buffer with a cursor. Its methods are the file
  operations the readers use (`tell`, `seek`, `read`, the end-of-file probe `iseof`) and the
  low-level readers themselves. Each method is proved equal to its `Wire` function.
- `Headers` models `get_header`. It reads the common `iiss` record (dump type, version, title,
  revision) with `get_dict` and looks each field up by its key, then reads the body the dump
  type selects:
  - 2 and 3: fields and scalars;
  - 6: particle movie;
  - 10: particle extraction.
  Any other dump type is rejected.
- `Fields` models `read_flds` from the point where the dump is open. It checks the dump type
  and the requested quantities, then reads the domain records. A quantity that was not
  requested is skipped with a relative seek. A requested one is split into components, and
  each component is reshaped to (nK, nJ, nI).
- `Movie` models `read_pmovie_ll` and its two passes:
  1. Pass 1 walks the frame records and notes where each frame's rows start.
  2. Pass 2 reads each frame's particle rows at its noted offset.
- `Extraction` models `read_pext_ll`. The quantity count picks the column names. The rest of
  the stream is read as whole rows of float words.
- `HeaderEncoding` is the writer's side of the header. It encodes every header `get_header`
  accepts and proves that `get_header` reads the encoding back as the same header, with the
  cursor right after it.

Every reader is a method on a `Stream`, proved to return what a pure function of the bytes and
the starting offset returns. The properties are lemmas about those functions. A failure is an
`Err` value that names the cause, where the Python code raises.

The specification and the code disagree in one place, and the model follows the code:
`read_pext_ll` does not reject a quantity count other than 8, 9, 11 or 12. It keeps the eight
base columns (`Extraction.Columns`).

## Model

| member | source | states |
|---|---|---|
| Wire.WordAt | lspsuite/reader.py:431-436 | the `>i4` or `>f4` big-endian word at an offset: its first byte is the most significant; `Wire.WordRoundTrip` shows the word encoder inverts it |
| Wire.IntAt | lspsuite/reader.py:428-440 | `get_int(file)` succeeds exactly when four bytes remain, gives the big-endian word read as a signed 32-bit int, and otherwise fails as a short read |
| Wire.WordAt1 | lspsuite/reader.py:442-453 | `get_float(file)` succeeds exactly when four bytes remain and gives the raw float word there; a short read fails |
| Wire.SingleIsBulk | lspsuite/reader.py:428-453 | a single `get_int`/`get_float` is the one element of a bulk read with `N=1`, success and value alike |
| Wire.Int32 | lspsuite/reader.py:431 | the `>i4` reading of a word is in the 32-bit range and negative exactly when the top bit is set |
| Wire.Int32Word | lspsuite/reader.py:431 | every 32-bit int has a word that reads back as it |
| Wire.IntsAt | lspsuite/reader.py:428-440 | `get_int(file, N=n)` succeeds exactly when `n` is not negative and `4n` bytes remain; int `k` is the word at `p + 4k` read as a signed 32-bit int; a negative count fails as `NegativeCount`, a short read as `Truncated` |
| Wire.WordsAt | lspsuite/reader.py:442-453 | `get_float(file, N=n)` succeeds exactly when `n` is not negative and `4n` bytes remain; float `k` is the raw word at `p + 4k`; a negative count fails as `NegativeCount`, a short read as `Truncated` |
| Wire.WordsFrom | lspsuite/reader.py:435-436 | `n` words from an offset: `n` of them, word `k` taken at offset `p + 4k` |
| Wire.PaddedLen | lspsuite/reader.py:461-463 | the payload size of `get_str` is the length rounded up to a multiple of 4, less than 4 above it |
| Wire.PaddedLenIsXdrRounding | lspsuite/reader.py:461-464 | that size equals xdrlib's rounding `(l + 3) / 4 * 4` and is the least multiple of 4 not below `l` |
| Wire.StrAt | lspsuite/reader.py:455-464 | `get_str` succeeds exactly when both prefixes are there, the first is not negative and the padded payload fits; its string is exactly that long and the cursor ends after the padding |
| Wire.StrAtPayload | lspsuite/reader.py:464 | the decoded string is the first `l1` bytes after the two prefixes |
| Wire.StrAtIgnoresSecondPrefix | lspsuite/reader.py:457-460 | whatever the second prefix holds, `get_str` decodes the same string, because a mismatch only prints a warning |
| Wire.StrsAt | lspsuite/reader.py:387-388 | `n` reads of `get_str` give `n` strings and never move the cursor back; `Wire.StrsRoundTrip` states what they decode |
| Wire.ItemAt | lspsuite/reader.py:473-481 | one `get_list` field has the type its letter names (`i` an int, `f` or `d` a float, `s` a string); only an unknown letter raises the unexpected-flag error, and that error names the letter |
| Wire.ItemAtWord | lspsuite/reader.py:474-477 | `i`, `f` and `d` read one word, as an int or as a float word |
| Wire.ItemAtStr | lspsuite/reader.py:478-479 | `s` reads one string |
| Wire.ListAt | lspsuite/reader.py:466-482 | `get_list` returns one field per letter, each of the letter's type, and never moves the cursor back |
| Wire.ListAtStep | lspsuite/reader.py:473-482 | `get_list` reads the first field, then the rest of the format from where it ended; the first failure is the result |
| Wire.ListAtAppend | lspsuite/reader.py:473-482 | reading the format `f1 + f2` is reading `f1`, then `f2` from where it ended |
| Wire.ListAtUnexpectedFlag | lspsuite/reader.py:480-481 | an unexpected-flag error comes from the first letter of the format that is not `i`, `f`, `d` or `s`, after every field before it was read |
| Wire.ListAtWordsOnly | lspsuite/reader.py:473-477 | a format of word letters only succeeds exactly when `4 * len(fmt)` bytes remain, ends that far on, and holds the word at `p + 4k` as field `k` |
| Wire.DictOf | lspsuite/reader.py:484-487 | `dict(zip(keys, values))` has exactly the keys paired with a value (the shorter list wins) |
| Wire.DictOfLookup | lspsuite/reader.py:484-487 | with distinct keys, key `k` maps to value `k` |
| Wire.DictOfFields | lspsuite/reader.py:484-487 | with distinct keys and as many values as keys, every key maps to the value at its own position |
| Wire.WordRoundTrip | lspsuite/reader.py:442-453 | the bytes of an encoded word read back as that word |
| Wire.IntRoundTrip | lspsuite/reader.py:428-440 | the bytes of an encoded int read back as that int |
| Wire.IntsRoundTrip | lspsuite/reader.py:435-436 | the bytes of `n` encoded ints read back as those ints with one bulk read |
| Wire.StrRoundTrip | lspsuite/reader.py:455-464 | an encoded string (two prefixes, bytes, zero padding) reads back as that string, with the cursor after its padding |
| Wire.StrsRoundTrip | lspsuite/reader.py:387-391 | a run of encoded strings reads back as that run with `n` reads of `get_str`, ending after the last padding |
| Streams.Stream.constructor | lspsuite/reader.py:42 | a newly opened stream holds the dump's bytes with its cursor at 0 |
| Streams.Stream.Tell | lspsuite/reader.py:494 | `file.tell()` is the cursor |
| Streams.Stream.Seek | lspsuite/reader.py:149 | `file.seek(p)` puts the cursor at `p` |
| Streams.Stream.Skip | lspsuite/reader.py:89 | `file.seek(n, 1)` moves the cursor `n` bytes on, past the end if need be |
| Streams.Stream.Read | lspsuite/reader.py:435 | `file.read(n)` returns the next `n` bytes, or the rest when fewer remain, and moves past them |
| Streams.Stream.ReadAll | lspsuite/reader.py:191 | `file.read()` returns the rest of the stream and moves to its end |
| Streams.Stream.IsEof | lspsuite/reader.py:493-498 | `iseof` is true exactly when no byte remains, and leaves the cursor where it was |
| Streams.Stream.GetInts | lspsuite/reader.py:428-440 | `get_int(file, N=n)` returns the `n` ints there and moves `4n` bytes on, or fails |
| Streams.Stream.GetInt | lspsuite/reader.py:428-440 | `get_int(file)` returns the int there and moves 4 bytes on, or fails |
| Streams.Stream.GetFloats | lspsuite/reader.py:442-453 | `get_float(file, N=n)` returns the `n` float words there and moves `4n` bytes on, or fails |
| Streams.Stream.GetFloat | lspsuite/reader.py:442-453 | `get_float(file)` returns the float word there and moves 4 bytes on, or fails |
| Streams.Stream.GetStr | lspsuite/reader.py:455-464 | `get_str(file)` returns what `Wire.StrAt` decodes and moves past the padding |
| Streams.Stream.GetStrs | lspsuite/reader.py:387-388 | `[get_str(file) for i in range(n)]` returns what `n` string reads decode, in order |
| Streams.Stream.GetItem | lspsuite/reader.py:474-481 | one field of `get_list`, as `Wire.ItemAt` |
| Streams.Stream.GetList | lspsuite/reader.py:466-482 | `get_list(file, fmt)` returns what `Wire.ListAt` decodes and moves to its end |
| Streams.Stream.GetDict | lspsuite/reader.py:484-487 | `get_dict` succeeds exactly when `get_list` does, and then returns the keys zipped with its fields; the header records and the frame records are read through it |
| Headers.Zip | lspsuite/reader.py:392 | `zip(names, units)` pairs element `k` with element `k` up to the shorter list |
| Headers.MovieLabels | lspsuite/reader.py:402-411 | a movie header with 7, 8 or 11 params labels them with the first `n` labels of `q,x,y,z,ux,uy,uz,E,xi,yi,zi`; any other count raises, naming the count |
| Headers.EnabledIndices | lspsuite/reader.py:412-414 | the positions of the set flags, each exactly once, in increasing order |
| Headers.SelectParams | lspsuite/reader.py:412-414 | the kept params are one per set flag among the positions `zip` reaches, each the (label, unit) pair at that position, in label order |
| Headers.SelectParamsEnabled | lspsuite/reader.py:412-414 | the kept params are exactly the (label, unit) pairs at the positions of the set flags, in label order |
| Headers.FlagsAt | lspsuite/reader.py:401 | `[bool(get_int(file)) for i in range(n)]` gives `n` flags and ends `4n` bytes on |
| Headers.FlagsAtWords | lspsuite/reader.py:401 | the flag reads succeed exactly when `4n` bytes remain, and flag `k` is set exactly when the int at `p + 4k` is nonzero |
| Headers.FlagsAtBulk | lspsuite/reader.py:401 | those reads fail exactly when a bulk read of `n` ints would, and flag `k` is set exactly when int `k` is nonzero |
| Headers.CommonRecord | lspsuite/reader.py:379-382 | the `iiss` record succeeds exactly when its two ints and two strings are there, and holds the dump type, version, title and revision in that order |
| Headers.FieldsRecord | lspsuite/reader.py:385 | the `fii` record succeeds exactly when 12 bytes remain, holds the timestamp word and two ints, and ends 12 bytes on |
| Headers.MovieRecord | lspsuite/reader.py:395-397 | the `iiii` record succeeds exactly when 16 bytes remain and holds its four ints |
| Headers.RecordKeysDistinct | lspsuite/reader.py:379-397 | the keys of each header record are distinct, so `get_dict` keeps every field |
| Headers.CommonDict | lspsuite/reader.py:379-381 | the `iiss` dictionary has exactly the keys dump_type, dversion, title and revision, each holding the field at its position |
| Headers.FieldsDict | lspsuite/reader.py:385 | the `fii` dictionary has exactly the keys timestamp, geometry and domains, each holding the field at its position |
| Headers.MovieDict | lspsuite/reader.py:395-397 | the `iiii` dictionary has exactly the keys geometry, sflagsx, sflagsy and sflagsz, each holding the field at its position |
| Headers.QuantitiesAt | lspsuite/reader.py:387-392 | a fields header declares `max(n, 0)` (name, unit) quantities after its count `n` |
| Headers.FieldsBodyAt | lspsuite/reader.py:383-392 | a fields header body reads as a fields body and never moves the cursor back; `Headers.FieldsBodyLayout` and `HeaderEncoding.FieldsBodyRoundTrip` state what it holds |
| Headers.FieldsBodyLayout | lspsuite/reader.py:383-392 | a fields body is the timestamp, geometry and domain count, then the quantity count and that many quantities; fewer than 12 bytes is a short read |
| Headers.ParamsAt | lspsuite/reader.py:399-414 | the param reads never move the cursor back; `Headers.MovieBodyLayout` and `HeaderEncoding.ParamsRoundTrip` state what they return |
| Headers.MovieBodyAt | lspsuite/reader.py:393-414 | a movie header body reads as a movie body and never moves the cursor back; `Headers.MovieBodyLayout` and `HeaderEncoding.MovieBodyRoundTrip` state what it holds |
| Headers.MovieBodyLayout | lspsuite/reader.py:393-414 | a movie body is geometry and the three scaling flags, then the params read 16 bytes in; fewer than 16 bytes is a short read |
| Headers.ExtractionBodyAt | lspsuite/reader.py:415-420 | an extraction body is the geometry, a count `n` and `max(n, 0)` names |
| Headers.BodyAt | lspsuite/reader.py:383-422 | dump types 2 and 3 give a fields body, 6 a movie body, 10 an extraction body; any other type raises, naming it |
| Headers.HeaderAt | lspsuite/reader.py:368-425 | `get_header` never moves the cursor back; `Headers.HeaderDumpTypes` and `HeaderEncoding.HeaderRoundTrip` state what it returns |
| Headers.HeaderDumpTypes | lspsuite/reader.py:379-422 | an accepted header has dump type 2, 3, 6 or 10, read from its first word, with the matching body; a readable common record of any other type is rejected, naming the type |
| Headers.GetFlags | lspsuite/reader.py:401 | the flag reads return `Headers.FlagsAt` |
| Headers.GetQuantities | lspsuite/reader.py:387-392 | the quantity reads return `Headers.QuantitiesAt` |
| Headers.GetFieldsBody | lspsuite/reader.py:383-392 | the fields body reads return `Headers.FieldsBodyAt` |
| Headers.GetParams | lspsuite/reader.py:399-414 | the param reads return `Headers.ParamsAt` |
| Headers.GetMovieBody | lspsuite/reader.py:393-414 | the movie body reads return `Headers.MovieBodyAt` |
| Headers.GetExtractionBody | lspsuite/reader.py:415-420 | the extraction body reads return `Headers.ExtractionBodyAt` |
| Headers.GetCommon | lspsuite/reader.py:379-382 | `get_dict(file, 'iiss', ...)` succeeds exactly when the `iiss` record reads, fails with its error otherwise, and gives the dump type, version, title and revision by key, with the cursor after the record |
| Headers.GetHeader | lspsuite/reader.py:368-425 | `get_header(file)` returns `Headers.HeaderAt` and leaves the cursor after the header |
| Fields.Cells | lspsuite/reader.py:78 | `nAll`, the number of cells of a domain, kept as a `Mul` of the three counts; `Fields.CellsIsProduct` shows it is `nI * nJ * nK` |
| Fields.QuantityWords | lspsuite/reader.py:93 | the `nAll * size` words one quantity takes in the stream; `Fields.CellsIsProduct` shows it is that product and `Fields.StrideIsQuantityBytes` that the skip of line 89 passes exactly those words |
| Fields.CellsIsProduct | lspsuite/reader.py:78 | `nAll` is `nI * nJ * nK`, and a quantity is `nAll * size` words |
| Fields.CellBound | lspsuite/reader.py:96 | cell (k, j, i) of the (nK, nJ, nI) reshape sits at flat index `(k * nJ + j) * nI + i`, inside the array |
| Fields.RawIndex | lspsuite/reader.py:94-101 | the position of component `c` of cell (k, j, i) among a quantity's raw words, `((k * nJ + j) * nI + i) * size + c`; `Fields.ComponentIndex` shows it lies inside the quantity and is the word the reshapes put at [k][j][i] |
| Fields.StrideIsQuantityBytes | lspsuite/reader.py:89 | the skip `nAll * 4 * size` is the byte length of one quantity |
| Fields.Channel | lspsuite/reader.py:94-95 | row `c` of `reshape(nAll, size).T` has `nAll` words; `Fields.ComponentIndex` states which raw word each holds |
| Fields.Reshape | lspsuite/reader.py:96-101 | `reshape(nK, nJ, nI)` has `nK` planes; `Fields.CellBound` and `Fields.ComponentIndex` state where each word goes |
| Fields.ComponentIndex | lspsuite/reader.py:94-101 | component `c` of a quantity, reshaped, holds at [k][j][i] the raw word `((k * nJ + j) * nI + i) * size + c` |
| Fields.ComponentKeys | lspsuite/reader.py:95-101 | one key per component: the name for a scalar, the name suffixed x, y and z for a vector; `Fields.ComponentKeysDistinct` and `Fields.ComponentKeysOwner` show the keys are distinct and name their quantity |
| Fields.ComponentKeysDistinct | lspsuite/reader.py:95-101 | the keys a quantity is stored under (its name, or its name suffixed x, y, z) are distinct |
| Fields.Store | lspsuite/reader.py:95-101 | storing a quantity gives a domain whose keys are the old keys and the quantity's component keys; `Fields.StoreEntries` states what each key holds |
| Fields.StoreEntries | lspsuite/reader.py:95-101 | storing a quantity adds exactly its component keys, each holding its reshaped component, and leaves every other key as it was |
| Fields.ComponentCount | lspsuite/reader.py:45-51 | dump type 2 has 3 components per quantity, 3 has 1, any other raises, naming the type |
| Fields.Names | lspsuite/reader.py:54 | the declared quantity names are the first halves of the header's pairs, in order |
| Fields.CheckFrom | lspsuite/reader.py:57-61 | the request loop from position `i`: a success gives exactly the set of requested names, and a failure is `QuantityNotAvailable` |
| Fields.CheckFromAccepts | lspsuite/reader.py:55-61 | a request passes exactly when every name in it is declared |
| Fields.CheckFromRejectsFirstMissing | lspsuite/reader.py:58-61 | a failing request names its first undeclared name, and every name before it is declared |
| Fields.Wanted | lspsuite/reader.py:55-64 | an empty request wants every declared quantity; a failure is an unavailable-quantity error |
| Fields.RequestAllIsEmptyRequest | lspsuite/reader.py:55-64 | a request naming exactly the declared quantities wants what the empty request wants |
| Fields.CheckRequest | lspsuite/reader.py:55-64 | the request loop returns `Fields.Wanted` |
| Fields.GridAt | lspsuite/reader.py:72-77 | a grid vector is a count `n` and the `n` words after it; a short read or a negative count fails |
| Fields.MeshAt | lspsuite/reader.py:70-77 | a domain starts with three dropped ints and three grid vectors, whose counts are nI, nJ, nK; it ends `24 + 4(nI + nJ + nK)` bytes on |
| Wire.AdvanceIsProduct | lspsuite/reader.py:87-93 | `n` quantities of `s` bytes move the cursor `n * s` bytes |
| Fields.SkipAllNeverFails | lspsuite/reader.py:88-89 | skipping quantities reads nothing, so it never fails, even past the end |
| Fields.QuantityFieldsAt | lspsuite/reader.py:87-102 | the quantity loop ends one quantity stride per remaining declared quantity on, whichever are wanted; its only failure is a short read; `Fields.QuantityFieldsKeys` and `Fields.QuantityFieldsContent` state what the domain holds |
| Fields.QuantityFieldsStep | lspsuite/reader.py:87-102 | a quantity is skipped when not wanted, and otherwise read (a short read fails) and stored |
| Fields.GridEntries | lspsuite/reader.py:80-85 | a new domain holds exactly xgv, ygv and zgv, the three grid vectors |
| Fields.DomainEnd | lspsuite/reader.py:87-102 | a domain ends `nAll * 4 * size` bytes per declared quantity after its mesh, whichever quantities are wanted |
| Fields.DecodedComponentWord | lspsuite/reader.py:93-101 | cell [k][j][i] of component `c` of a read quantity is the stream word at `4 * (((k * nJ + j) * nI + i) * size + c)` bytes in |
| Fields.DomainAt | lspsuite/reader.py:69-104 | a domain read never moves the cursor back, and fails only with a read error; `Fields.DomainKeys`, `Fields.DomainGrid` and `Fields.DomainCell` state what the domain holds |
| Fields.DomainsFrom | lspsuite/reader.py:68-104 | the domain loop appends one domain per turn after those already read; a failure is a short read or a negative count |
| Fields.DomainsFromStep | lspsuite/reader.py:68-104 | one turn of the domain loop reads a domain at the current offset, appends it, and goes on from its end; a failing read ends the loop with its error |
| Fields.FldsAt | lspsuite/reader.py:44-106 | a successful `read_flds` returns the header `get_header` reads and leaves the cursor no earlier than the end of that header; `Fields.FldsDomains` states what the domains are |
| Fields.ComponentKeysOwner | lspsuite/reader.py:95-101 | a component key belongs to one quantity name only |
| Fields.QuantityFieldsKeys | lspsuite/reader.py:87-102 | after the quantity loop the domain holds exactly its earlier keys and the component keys of every wanted quantity |
| Fields.QuantityFieldsKeeps | lspsuite/reader.py:87-102 | an earlier key that no wanted quantity reuses keeps its entry |
| Fields.QuantityFieldsContent | lspsuite/reader.py:87-102 | a wanted quantity that is not declared again later holds, under each component key, that component reshaped, read from its own offset `k` quantity strides after the start |
| Fields.DomainKeys | lspsuite/reader.py:80-102 | a domain holds exactly xgv, ygv, zgv and the component keys of the wanted quantities |
| Fields.DomainGrid | lspsuite/reader.py:80-85 | xgv, ygv and zgv hold the grid vectors of the mesh unless a wanted quantity is stored under that key |
| Fields.DomainQuantity | lspsuite/reader.py:87-102 | the `k`-th declared quantity, when wanted and not declared again later, is stored under its keys as its components reshaped, read `k` quantity strides after the mesh |
| Fields.DomainCell | lspsuite/reader.py:87-101 | cell [k][j][i] of component `c` of such a quantity is the stream word `k` quantity strides after the mesh plus `4 * (((k * nJ + j) * nI + i) * size + c)` bytes |
| Fields.QuantityCell | lspsuite/reader.py:93-101 | cell [k][j][i] of component `c` of a quantity read at `q` is the stream word at `q + 4 * (((k * nJ + j) * nI + i) * size + c)` |
| Fields.DomainsFromIsChain | lspsuite/reader.py:68-104 | the domains the loop returns are the domain records from its start offset in stream order, each starting where the one before ends, the last ending where the loop leaves the cursor |
| Fields.DomainsFromEndAnyRequest | lspsuite/reader.py:68-104 | the domain loop ends at the same offset whichever quantities are wanted |
| Fields.FldsDomains | lspsuite/reader.py:44-106 | `read_flds` returns the chain of domain records that starts right after the header, read with the header's quantities, the wanted set the request gives and the dump type's component count |
| Fields.FldsEndAnyRequest | lspsuite/reader.py:44-106 | any two successful requests on the same dump leave the cursor at the same offset |
| Fields.FldsDomainCount | lspsuite/reader.py:68-106 | `read_flds` returns `max(domains, 0)` domains, for a fields or scalars header |
| Fields.FldsRejectsOtherDumps | lspsuite/reader.py:45-51 | a readable header of a type other than 2 or 3 is rejected, naming the type, before anything else |
| Fields.FldsAcceptsFieldDumps | lspsuite/reader.py:45-48 | a fields or scalars header is never rejected as the wrong kind of dump |
| Fields.FldsRejectsUndeclared | lspsuite/reader.py:57-61 | a request with an undeclared name fails with the first such name, and no domain is read |
| Fields.FldsEmptyRequestMeansAll | lspsuite/reader.py:55-56 | an empty request reads what a request naming every declared quantity reads |
| Fields.GetGrid | lspsuite/reader.py:72-77 | a grid read returns `Fields.GridAt` |
| Fields.GetMesh | lspsuite/reader.py:70-77 | the mesh reads return `Fields.MeshAt` |
| Fields.GetQuantityFields | lspsuite/reader.py:87-102 | the quantity loop returns `Fields.QuantityFieldsAt`, whose keys and arrays `Fields.QuantityFieldsKeys` and `Fields.QuantityFieldsContent` state, and leaves the cursor at its end |
| Fields.GetDomain | lspsuite/reader.py:69-104 | one domain's reads return `Fields.DomainAt`, whose keys, grids and cells `Fields.DomainKeys`, `Fields.DomainGrid` and `Fields.DomainCell` state |
| Fields.GetDomains | lspsuite/reader.py:68-104 | the domain loop returns `Fields.DomainsFrom`, the domain records in stream order (`Fields.DomainsFromIsChain`), and leaves the cursor after the last one |
| Fields.ReadFlds | lspsuite/reader.py:44-106 | `read_flds` on an open dump returns `Fields.FldsAt` (its domains by `Fields.FldsDomains`) and leaves the cursor where `Fields.FldsAt` ends, the same offset for every request (`Fields.FldsEndAnyRequest`) |
| Movie.ParamNames | lspsuite/reader.py:136-137 | the param names are the labels of the movie header's params, in order; a non-movie header lacks the key and an empty param list cannot be unpacked |
| Movie.FrameHeadAt | lspsuite/reader.py:142 | a frame record is there exactly when 12 bytes remain |
| Movie.FrameKeysDistinct | lspsuite/reader.py:142 | the frame record keys t, step and pnum are distinct |
| Movie.FrameDict | lspsuite/reader.py:142 | the frame dictionary has exactly the keys t, step and pnum, each holding the field at its position |
| Movie.FrameRecord | lspsuite/reader.py:142 | `get_dict(file, 'fii', ...)` reads a frame record: t, step and pnum, exactly when 12 bytes remain |
| Movie.FrameAt | lspsuite/reader.py:142-144 | a pass 1 turn succeeds exactly when a record is there with `pnum >= 0`; it notes the record and the offset after it, and goes on `pnum` rows later |
| Movie.IndexFrom | lspsuite/reader.py:141-145 | pass 1 keeps the frames found so far, adds only indexed frames with non-negative counts, and fails only on a short record or a negative count |
| Movie.Chain | lspsuite/reader.py:141-145 | every frame of a chain is an indexed frame with a count that is not negative and an offset inside the stream |
| Movie.IndexFromIsChain | lspsuite/reader.py:141-145 | the frames pass 1 finds form a chain: each record's rows follow it, the next record follows them, and the last one ends at the end of the stream |
| Movie.ChainIsIndexFrom | lspsuite/reader.py:141-145 | every such chain is what pass 1 finds, so the frames of a movie are unique |
| Movie.RowBytes | lspsuite/reader.py:138 | `pbytes = (nparams + 1) * 4`, the bytes of one particle row: the id word and one word per param; `Movie.ParticleOffsets` places each row at these strides |
| Movie.ParticleAt | lspsuite/reader.py:148-150 | a particle row is an id and `nparams` param words; `Movie.ParticleOffsets` states which words they are |
| Movie.ParticlesFrom | lspsuite/reader.py:150 | `n` consecutive particle rows, exactly `n` of them; `Movie.ParticlesFromOffsets` states which row each one is |
| Movie.ParticlesFromOffsets | lspsuite/reader.py:150 | row `k` of a run of rows is the particle row `k` row strides after the start of the run, and lies inside the buffer |
| Movie.ParticleOffsets | lspsuite/reader.py:148-150 | row `k` of a frame is the particle id at `pos + k * pbytes`, followed by its `nparams` param words |
| Movie.ParticlesAt | lspsuite/reader.py:150 | a frame's rows are read exactly when `pnum * pbytes` bytes remain at its offset; otherwise the read is short |
| Movie.LoadFrom | lspsuite/reader.py:147-153 | pass 2 keeps the number of frames and fails only on a short read |
| Movie.LoadFromFrames | lspsuite/reader.py:147-153 | pass 2 leaves the frames before `i` as they were and loads each later frame from its own offset, keeping t, step and pnum |
| Movie.PmovieAt | lspsuite/reader.py:135-154 | a header without usable params fails with that error; a success returns one frame per frame pass 1 finds; `Movie.PmovieFrames` states what each frame holds |
| Movie.PmovieFrames | lspsuite/reader.py:135-154 | `read_pmovie_ll` returns one frame per record of the chain, in order, each keeping t, step and pnum, holding `pnum` rows read right after its record, and without its offset |
| Movie.PmovieRejectsHeader | lspsuite/reader.py:136 | a header that is not a movie header, or that has no enabled param, is rejected before any read |
| Movie.IndexStepAsWritten | lspsuite/reader.py:142-144 | as written, a pass 1 turn goes on `12 + pnum * pbytes` bytes past the record, whatever the sign of pnum |
| Movie.IndexStepAsWrittenRepeats | lspsuite/reader.py:141-144 | as written, with two params the record t=0, step=0, pnum=-1 sends pass 1 back to its own start, before the end of the stream |
| Movie.GetFrameHead | lspsuite/reader.py:142 | the frame record read, through `get_dict` and a lookup by key, returns `Movie.FrameHeadAt` and moves 12 bytes on |
| Movie.IndexFrame | lspsuite/reader.py:142-144 | one turn of the pass 1 loop returns `Movie.FrameAt` and leaves the cursor at its next offset |
| Movie.IndexFrames | lspsuite/reader.py:139-145 | the pass 1 loop returns `Movie.IndexFrom` |
| Movie.LoadFrames | lspsuite/reader.py:146-153 | the pass 2 loop returns `Movie.LoadFrom` |
| Movie.ReadPmovieLl | lspsuite/reader.py:135-154 | `read_pmovie_ll` returns `Movie.PmovieAt` |
| Extraction.QuantityCount | lspsuite/reader.py:178 | `len(header['quantities'])` is the number of names of an extraction header or of pairs of a fields header; a movie header lacks the key |
| Extraction.Columns | lspsuite/reader.py:179-185 | there are always at least the eight base columns |
| Extraction.ColumnsShape | lspsuite/reader.py:179-185 | the columns start with t, q, x, y, z, ux, uy, uz; E follows for 9 and 12, xi, yi, zi end the list for 11 and 12, and any other count keeps the base alone |
| Extraction.ColumnsDistinct | lspsuite/reader.py:179-187 | no column name repeats, as the structured dtype built from them needs |
| Extraction.RowsFrom | lspsuite/reader.py:190-192 | `n` rows of `width` words each; `Extraction.RowsFromCell` and `Extraction.RowsAtCell` state which word each cell is |
| Extraction.RowsFromCell | lspsuite/reader.py:190-192 | word `j` of row `k` is the buffer word `k` row strides and `j` words after the start, and it lies inside the buffer |
| Extraction.WholeRows | lspsuite/reader.py:190-192 | the number of whole rows in the rest of the stream: none exactly when the rest is shorter than a row; `Extraction.RowsAreDivMod` shows it is the quotient by the row size |
| Extraction.Leftover | lspsuite/reader.py:190-192 | the bytes after the whole rows: fewer than a row, and no more than the rest; `Extraction.RowsAreDivMod` shows it is the remainder, and `Extraction.RowsAt` fails when it is not zero |
| Extraction.RowsSplit | lspsuite/reader.py:190-192 | the rest of the stream is its whole rows followed by fewer bytes than a row |
| Extraction.RowsAreDivMod | lspsuite/reader.py:190-192 | the whole rows and the leftover are the quotient and the remainder of the division by the row size |
| Extraction.RowsAt | lspsuite/reader.py:190-192 | the rest of the stream is rejected when bytes are left over after its whole rows; otherwise every row has one word per column |
| Extraction.PextAt | lspsuite/reader.py:176-193 | a successful `read_pext_ll` has the columns the quantity count picks and one word per column in every row; `Extraction.PextOutcome` and `Extraction.PextCell` state when it succeeds and what each cell is |
| Extraction.PextOutcome | lspsuite/reader.py:176-193 | `read_pext_ll` succeeds exactly when the rest of the stream is a whole number of rows; it then returns the columns the count picks and `rest / row size` rows, and otherwise reports the leftover bytes |
| Extraction.RowsAtCell | lspsuite/reader.py:190-192 | word `j` of row `k` is the stream word `k` rows and `j` words after the start of the rest |
| Extraction.PextCell | lspsuite/reader.py:187-192 | column `j` of row `k` of the table is the float word `k` rows and `j` words after the header |
| Extraction.PextRejectsMovie | lspsuite/reader.py:178 | a movie header is rejected before any read |
| Extraction.ReadPextLl | lspsuite/reader.py:176-193 | `read_pext_ll` returns `Extraction.PextAt` |
| HeaderEncoding.ZipSplit | lspsuite/reader.py:392 | splitting quantities into names and units and zipping them again gives the quantities back |
| HeaderEncoding.FieldsBodyRoundTrip | lspsuite/reader.py:383-392 | an encoded fields body reads back as itself, with the cursor right after it |
| HeaderEncoding.FieldsBodyFields | lspsuite/reader.py:383-392 | in an encoded fields body the timestamp, geometry, domain count, quantity count, names and units sit where the reads look for them |
| HeaderEncoding.FieldsBodyFromFields | lspsuite/reader.py:383-392 | fields found where the reads look for them assemble into that fields body |
| HeaderEncoding.FlagsRoundTrip | lspsuite/reader.py:401 | encoded flags read back as themselves, 4 bytes each |
| HeaderEncoding.FlagsFromInts | lspsuite/reader.py:401 | ints that are 1 for a set flag and 0 otherwise read back as those flags |
| HeaderEncoding.ParamsRoundTrip | lspsuite/reader.py:399-414 | an encoded param block reads back as the (label, unit) pairs of its set flags, with the cursor right after it |
| HeaderEncoding.ParamsFields | lspsuite/reader.py:399-414 | in an encoded param block the count, the flags and the units sit where the reads look for them |
| HeaderEncoding.ParamsFromFields | lspsuite/reader.py:399-414 | a count, flags and units found where the reads look for them give the selected params |
| HeaderEncoding.MovieBodyRoundTrip | lspsuite/reader.py:393-414 | an encoded movie body reads back as itself, with the cursor right after it |
| HeaderEncoding.MovieBodyFields | lspsuite/reader.py:393-414 | in an encoded movie body the four ints sit in the first 16 bytes and the param block follows |
| HeaderEncoding.MovieBodyFromFields | lspsuite/reader.py:393-414 | four ints and params found where the reads look for them assemble into that movie body |
| HeaderEncoding.ExtractionBodyRoundTrip | lspsuite/reader.py:415-420 | an encoded extraction body reads back as itself, with the cursor right after it |
| HeaderEncoding.BodyRoundTrip | lspsuite/reader.py:383-422 | an encoded body reads back as itself under its dump type |
| HeaderEncoding.CommonFields | lspsuite/reader.py:379-382 | in an encoding the dump type, version, title and revision sit where the `iiss` reads look for them, and what follows starts right after the revision |
| HeaderEncoding.HeaderFields | lspsuite/reader.py:379-382 | the same holds for an encoded header, and its body follows the revision |
| HeaderEncoding.HeaderFromFields | lspsuite/reader.py:379-425 | a common record and a body found where the reads look for them assemble into that header |
| HeaderEncoding.HeaderRoundTrip | lspsuite/reader.py:368-425 | every header a writer can encode (dump type 2 or 3 with a fields body, 6 with a movie body, 10 with an extraction body) reads back as itself, with the cursor right after it |
| HeaderEncoding.HeaderPrefixRoundTrip | lspsuite/reader.py:368-425 | a dump that starts with an encoded header gives that header back, whatever follows it, and the payload starts right after it |

## Left out

- Opening the dump is not modelled: the file name, the `.gz` suffix that selects gzip, the
  `with` blocks, and the branch of `get_header` that reopens a file name. The wrappers
  `read_sclr`, `read_pmovie` and `read_pext` are only such opening plus a call.
- The `size` keyword of `get_header` is not modelled. It only reports how many bytes the
  header took, which `Headers.GetHeader` states as the cursor after the header.
- `read_history`, `read_grid`, `read_regions`, `read_volumes`, `times` and `pseek` are not part
  of this model. They parse text or only print.
- Floats are kept as their raw 32-bit words. No floating-point value is computed, since the
  readers only move the words around.
- Strings are kept as their bytes. The UTF-8 decoding of `get_str` is not modelled, so an
  invalid UTF-8 payload does not fail in the model. Param labels and column names are the
  code's own string constants.
- The `lowlev` paths (`np.fromfile`) are not modelled. They read the same bytes as the default
  paths.
- Fields.GridAt, Streams.Stream.GetInts, Streams.Stream.GetFloats: a negative count fails
  as `NegativeCount`, where `get_int` and `get_float` would read what `file.read` gives for a
  negative size, the rest of the stream.
- Movie.FrameAt, Movie.IndexFrom: a negative `pnum` in a frame record fails as
  `NegativeCount`. The code instead seeks `pnum * pbytes` bytes backwards (reader.py line 144).
  Findings shows where that leads.
- Fields.Cells, Fields.DomainEnd, Fields.GridAt, Movie.FrameAt, Movie.ParticlesAt, Wire.StrAt:
  counts and byte lengths are unbounded integers. In the code they are numpy int32 values,
  because `get_int` returns a numpy int32 scalar. `nAll = nI*nJ*nK` (reader.py line 78) wraps
  once a domain has 2^31 cells or more. Under NumPy 2 the byte counts also stay int32 and wrap
  at 2^31 bytes:
  - `nAll*4*size` (line 89);
  - `dtype.itemsize * N` (line 448), called from line 93 with `nAll*size` and from lines 73,
    75 and 77 with a grid count, so it wraps for a grid count of 2^29 or more;
  - `d['pnum']*pbytes` (line 144);
  - `N*4*len(lt)` (line 150);
  - the padded string size `size += 4 - l1%4` (lines 462-463), which wraps when `l1` is
    2^31-3 or more and not a multiple of 4.
  A wrapped size reaches `file.read` as a negative size, which reads the rest of the stream, or
  as a wrong one. The model is exact while every domain has fewer than 2^31 cells, every grid
  count is below 2^29, every string length is below 2^31-3, and every other byte count listed
  here is below 2^31.
- The cursor position after a failure is not stated. Every failure ends the call, as the
  exception does.
- The printed warnings (mismatched string prefixes, the list of stored fields) are not
  modelled.
- `header['quantities']` of a fields header is modelled as a list of pairs. Under Python 3 it
  is a one-shot `zip` iterator, and `len()` of it raises.
- A frame is a datatype with the fields t, step, pnum and pos (pass 1) or data (pass 2), not
  a dictionary. Pass 1 reads its record with `get_dict` and looks each field up by key. The
  keys are `Movie.FrameKeys`, distinct by `Movie.FrameKeysDistinct`, and `Movie.FrameDict`
  says where each field goes.
- numpy's structured arrays become sequences:
  - a particle row is its id and its param words;
  - an extraction row is its words, one per column;
  - a reshaped quantity is nested sequences indexed [k][j][i].
- `Extraction.PextCell`: states the cell offset as `Advance(p, k, 4 * width) + 4 * j`, `k` row
  strides of `4 * width` bytes, rather than writing out the product. `Wire.AdvanceIsProduct`
  shows the two are equal.

## Findings

| source | as written | input that shows it | evidently intended | confidence | as-written member | corrected member |
|---|---|---|---|---|---|---|
| lspsuite/reader.py:141-144 | pass 1 seeks `pnum * pbytes` bytes from the end of each frame record without checking that `pnum` is not negative | two enabled params (`pbytes` = 12) and a frame record t = 0, step = 0, pnum = -1: the seek of -12 bytes returns to the start of the same record, which is not at the end of the stream, so the loop reads it forever | reject a negative `pnum`, so that every turn of pass 1 moves forward and the loop ends | not executed | Movie.IndexStepAsWrittenRepeats | Movie.FrameAt |
