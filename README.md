# kui core, modelled in Dafny

kui is a small C library that opens a webview window and serves the page
embedded resources and a small file API through JavaScript-callable native
functions. This project models the logic of its two C files that can be
stated and checked:

- `kui/src/kui.c`:
  - the Base64 encoder `kui_b64_encode`;
  - the `</script` escaper `esc_script_n` and the page assembler `build_page_n`;
  - the error reply `reply_err`;
  - the version reply, the `kui:/` strip and resource lookup of the resolve reply;
  - the argument defaults;
  - the `kui_init` / `kui_set_page` / `kui_run` lifecycle over `gState`, `gView` and `gPrelude`.
- `kui/src/filesystem.c`:
  - the 256-slot handle table `g_streams` with `alloc_handle`, `free_handle` and `get_fp`;
  - the five file-call handlers `__fs_open`, `__fs_read`, `__fs_write`, `__fs_seek` and `__fs_close`.

Modules, one per file:

| file | module | what it holds |
|---|---|---|
| `wrappers.dfy` | `Wrappers` | `Option` |
| `base64.dfy` | `Base64` | the encoder as written (a method filling an `array<char>`), the RFC 4648 section 4 encoding and a decoder |
| `script_escape.dfy` | `ScriptEscape` | the escaper as a method over an `array<char>` and its specification `Escape` |
| `page.dfy` | `Page` | the page assembler as a method copying the five parts into an `array<char>` |
| `error_reply.dfy` | `ErrorReply` | the error reply as written (the writes it makes) and a corrected builder writing into `char buf[512]` |
| `handles.dfy` | `Handles` | the handle table on values and as a class over `array<Slot>` changed in place |
| `file_calls.dfy` | `FileCalls` | the handlers as functions over a `World` (table, open streams), a class `FileBridge` that performs them in place, and a whole session |
| `kui.dfy` | `Kui` | result and state codes, version, resolve, defaults, and the lifecycle as functions over a `Host` and as a class `Runtime` over the globals |

The loops over buffers (the encoder, the escaper, the page assembler, the
error reply) and the operations that change the handle table or the
globals in place are methods. Each is proved against a specification
function: its `ensures` ties the result and the new state to that function
of the inputs and the old state. Code without loops or state, such as the
version and resolve replies and the defaults, is modelled as functions.
The error reply as written is also a function, the list of writes it
makes. The properties the library promises are lemmas about those
functions.

Conventions:
- Bytes are integers in `[0, 256)`. C strings are `seq<char>` without their terminator.
- A stream is its contents plus a position. A stream handed out by `fopen` is named by a number.
- Webview calls are recorded in a log of `HostCall`s instead of being performed.
- A JSON request arrives already parsed. A field the source reads through NULL gives the outcome `Crash`.

## Model

| member | source | states |
|---|---|---|
| `Base64.EncodeAsWritten` | kui/src/kui.c:74-97 | allocates `4*((len+2)/3)+1` chars and fills them with the encoder's loop as written, `AsWritten(data)`, followed by a NUL |
| `Base64.EmitGroup` | kui/src/kui.c:83-92 | one pass of the loop: takes up to three octets, advancing `i` only while `i < len`, and writes four table characters at `j` |
| `Base64.JoinSextets` | kui/src/kui.c:87-90 | the four 6-bit fields of the 24-bit `triple` are its bits: joining them gives the triple back |
| `Base64.SplitTriple` | kui/src/kui.c:87 | the triple determines its three octets |
| `Base64.ValueOfTable` | kui/src/kui.c:75-76 | each of the 64 table characters maps back to its index, and none is `=` |
| `Base64.AsWrittenLength` | kui/src/kui.c:77 | the output has exactly `4*((len+2)/3)` characters, so it is empty exactly for empty input |
| `Base64.AsWrittenFromAlphabet` | kui/src/kui.c:89-92 | every output character comes from the 64-character table |
| `Base64.AsWrittenNeverPads` | kui/src/kui.c:91-92 | `=` never appears in the output: the guards `i > len+1` and `i > len` never hold |
| `Base64.AsWrittenStandardOnWholeGroups` | kui/src/kui.c:82-93 | when `len % 3 == 0` the output equals the RFC 4648 section 4 encoding |
| `Base64.AsWrittenRoundTripFails` | kui/src/kui.c:82-92 | when `len % 3 != 0` the output differs from the standard encoding, and decoding it does not give the input back |
| `Base64.AsWrittenOneOctet` | kui/src/kui.c:83-92 | the byte `0x41` encodes as `QQAA` where the standard gives `QQ==`; `QQAA` decodes to three bytes `41 00 00` |
| `Base64.DecodeEncode` | kui/src/kui.c:74-97 | the corrected encoder: decoding its output gives the input back, for every input |
| `Base64.EncodeLength` | kui/src/kui.c:77 | the corrected encoder keeps the length `4*((len+2)/3)` |
| `Base64.EncodePadsShortGroup` | kui/src/kui.c:91-92 | the corrected encoder ends in `=` whenever the final group is partial |
| `Base64.AsWrittenIsZeroFilled` | kui/src/kui.c:82-92 | the output as written is the standard encoding of the input followed by zero bytes up to a multiple of three |
| `Base64.AsWrittenPadsWithA` | kui/src/kui.c:91-92 | for every input the output as written is the standard encoding with each of its one or two `=` replaced by `A`, and nothing else changed |
| `Base64.AsWrittenCollides` | kui/src/kui.c:82-92 | when `len % 3 != 0`, the input with one more zero byte appended encodes to the same text, although the two inputs differ |
| `Base64.NoDecoderRecovers` | kui/src/kui.c:82-92 | when `len % 3 != 0`, no decoder whatever gives back both the input and the input with a zero byte appended from what the encoder writes |
| `Base64.AsWrittenDecodes` | kui/src/kui.c:82-92 | decoding the output as written gives the input back exactly when `len % 3 == 0` |
| `ScriptEscape.EscapeScript` | kui/src/kui.c:215-242 | counts the matches, allocates `n+extra+1` chars, and copies with a backslash inserted after each matched `<`; the output is `Escape(js)`, its length is `n+extra`, and it ends in a NUL |
| `ScriptEscape.OrMatchesLetter` | kui/src/kui.c:219-221 | setting bit 5 of `c` (the source's `c OR 32`) gives the lower-case letter `l` exactly when `c` is `l` or its upper case |
| `ScriptEscape.CloseAtIsClose` | kui/src/kui.c:218-221 | the source's test at `i` holds exactly when `</script` starts there in any letter case, with `i+8 <= n` |
| `ScriptEscape.NoMatchNearEnd` | kui/src/kui.c:217 | no match starts within the last seven characters |
| `ScriptEscape.EscapeLength` | kui/src/kui.c:216-240 | the output length is `n` plus the number of matches, which is what the counting pass computes, so the buffer is sized exactly |
| `ScriptEscape.EscapeHasNoClose` | kui/src/kui.c:228-238 | the output contains no `<` `/` `script` in any letter case, by either the source's test or the case-insensitive one |
| `ScriptEscape.RemoveInserted` | kui/src/kui.c:233-234 | deleting the inserted backslashes gives back the input, letter case kept; each inserted backslash sits right after a `<` and before a `/` |
| `ScriptEscape.EscapeUnchanged` | kui/src/kui.c:228-238 | the output equals the input exactly when there is no match |
| `Page.BuildPage` | kui/src/kui.c:244-268 | allocates the sum of the five parts plus one and fills it with head, escaped prelude, middle, body and tail, then a NUL; a NULL prelude counts as empty |
| `Page.CopyInto` | kui/src/kui.c:259-263 | one `memcpy` and advance of `p`: the text so far gains exactly the copied part |
| `Page.PageLength` | kui/src/kui.c:254 | the page length is the five parts' sum, the prelude having grown by one per match |
| `Page.BodyVerbatim` | kui/src/kui.c:261-263 | the body appears unchanged right after the middle part and is followed only by the tail |
| `Page.HeadShape` | kui/src/kui.c:250 | the head is 57 characters, holds no `/`, and ends in `>` |
| `Page.PageSplit` | kui/src/kui.c:250-261 | the page is the head, then the escaped prelude, then the middle part at `ScriptEnd` |
| `Page.ScriptClosesAtMid` | kui/src/kui.c:247-261 | the script element the head opens is closed exactly where the middle part starts: no `</script` in any case occurs earlier, whatever the prelude holds |
| `ErrorReply.JsonEscapeLength` | kui/src/kui.c:65-68 | the escaped message is one character longer per `"` or `\` |
| `ErrorReply.UnescapeEscape` | kui/src/kui.c:65-68 | reading the escaped message as a JSON string gives the message back |
| `ErrorReply.PlainUnchanged` | kui/src/kui.c:66-67 | a message with no `"` or `\` is copied unchanged |
| `ErrorReply.StopFromShape` | kui/src/kui.c:65 | the loop as written stops at the end of the message or once `k + 2 >= 512` |
| `ErrorReply.AsWrittenInBounds` | kui/src/kui.c:61-70 | the bytes written fit in `buf[512]` exactly when the escaped message has at most 499 characters; at most 514 are written; within bounds the reply is the whole escaped message |
| `ErrorReply.StopFacts` | kui/src/kui.c:65-68 | the loop as written stops at the end of the message or once 500 escaped characters are out, and never past 501 of them |
| `ErrorReply.AsWrittenOverflows` | kui/src/kui.c:65-70 | a message of 500 plain characters makes the source write 513 bytes into the 512-byte buffer |
| `ErrorReply.ReplyErr` | kui/src/kui.c:59-72 | the corrected builder: the buffer has 512 bytes, the reply is `{"error":"` + the escaped longest fitting prefix of the message + `"}`, and the NUL is inside the buffer |
| `ErrorReply.CopyFitting` | kui/src/kui.c:65-68 | the corrected copying loop: after the opening, the buffer holds the escaped longest fitting prefix of the message, ending at most at index 509 so that the closing and the NUL still fit |
| `ErrorReply.PutChar` | kui/src/kui.c:66-67 | one pass of the loop body appends the character, preceded by a backslash when it is `"` or `\` |
| `ErrorReply.FitCountMaximal` | kui/src/kui.c:65 | the corrected bound keeps the longest prefix whose escape has at most 499 characters; it keeps the whole message exactly when that fits |
| `ErrorReply.CorrectedAgrees` | kui/src/kui.c:61-70 | whenever the source stays inside its buffer, the corrected builder writes the same reply |
| `Handles.HandleTable.constructor` | kui/src/filesystem.c:9 | the static array starts with all 256 slots unused and NULL |
| `Handles.HandleTable.Alloc` | kui/src/filesystem.c:11-19 | the ascending scan over 1..255 marks the first free slot and returns it, or returns 0 with nothing changed; equals `AllocStep` on the old slots |
| `Handles.HandleTable.Free` | kui/src/filesystem.c:21-26 | clears slot `h` only for `h` in (0, 256); equals `FreeStep` |
| `Handles.HandleTable.GetFp` | kui/src/filesystem.c:28-30 | reads the stream of handle `h` from the array, agreeing with `Lookup` on its contents |
| `Handles.HandleTable.SetFp` | kui/src/filesystem.c:65 | stores the stream in the slot just allocated and changes no other slot |
| `Handles.FirstFreeIsLowest` | kui/src/filesystem.c:11-19 | allocation finds the lowest free handle in [1, 256); it finds 0 exactly when all 255 are in use |
| `Handles.AllocOnlyMarks` | kui/src/filesystem.c:11-19 | allocation marks only the slot it returns, which was free; returning 0 changes nothing |
| `Handles.FreeOnlyClears` | kui/src/filesystem.c:21-26 | freeing changes only slot `h`, leaving it unused and NULL, and nothing at all for `h` outside (0, 256) |
| `Handles.FreeIdempotent` | kui/src/filesystem.c:21-26 | a repeated free changes nothing more |
| `Handles.LookupAfterFree` | kui/src/filesystem.c:21-30 | after `free_handle(h)`, `get_fp(h)` is NULL and every other handle resolves as before |
| `Handles.FreeUndoesAlloc` | kui/src/filesystem.c:11-26 | freeing the handle just allocated restores the table |
| `Handles.AllocManyFills` | kui/src/filesystem.c:11-19 | `k` allocations from the empty table return 1..k in order and use exactly those slots |
| `Handles.FillTable` | kui/src/filesystem.c:9-19 | 255 allocations from the empty table return 1..255, and the next returns 0 and changes nothing |
| `FileCalls.ReadAt` | kui/src/filesystem.c:92 | `fread` returns at most `max` bytes and at most what remains, exactly those at the position, and advances the position past them |
| `FileCalls.SeekTo` | kui/src/filesystem.c:161-167 | a seek succeeds only for whence 0, 1 or 2 and a non-negative target |
| `FileCalls.WriteThenRead` | kui/src/filesystem.c:140 | bytes written at a position read back unchanged from that position |
| `FileCalls.EmptyWorld` | kui/src/filesystem.c:9 | the empty table with no open streams satisfies the handlers' invariant |
| `FileCalls.FileBridge.constructor` | kui/src/filesystem.c:9 | starts from the empty table and no open streams |
| `FileCalls.FileBridge.Open` | kui/src/filesystem.c:41-73 | performs `__fs_open` in place, with the outcome and new state given by `OpenSpec`, and keeps the invariant |
| `FileCalls.FileBridge.Admit` | kui/src/filesystem.c:59-65 | registers the opened stream, allocates a handle and stores the stream in it, or closes the stream again when no handle is free |
| `FileCalls.FileBridge.Read` | kui/src/filesystem.c:76-118 | performs `__fs_read` in place as `ReadSpec` says, keeping the invariant; the chunk is encoded by `Base64.EncodeAsWritten`, as `kui_b64_encode` writes it |
| `FileCalls.FileBridge.Write` | kui/src/filesystem.c:121-149 | performs `__fs_write` in place as `WriteSpec` says, keeping the invariant |
| `FileCalls.FileBridge.Seek` | kui/src/filesystem.c:169-189 | performs `__fs_seek` in place as `SeekSpec` says, keeping the invariant |
| `FileCalls.FileBridge.Close` | kui/src/filesystem.c:192-209 | performs `__fs_close` in place as `CloseSpec` says, keeping the invariant |
| `FileCalls.OpenKeepsWorld` | kui/src/filesystem.c:41-73 | open keeps the invariant: live handles hold open streams, no two hold the same one, and no open stream is left without a handle, even when the table is full |
| `FileCalls.ReadKeepsWorld` | kui/src/filesystem.c:76-118 | read keeps the invariant and never changes the table |
| `FileCalls.WriteKeepsWorld` | kui/src/filesystem.c:121-149 | write keeps the invariant and never changes the table |
| `FileCalls.SeekKeepsWorld` | kui/src/filesystem.c:169-189 | seek keeps the invariant and never changes the table |
| `FileCalls.CloseKeepsWorld` | kui/src/filesystem.c:192-209 | close keeps the invariant: the stream and its handle go together |
| `FileCalls.OpenReports` | kui/src/filesystem.c:53-69 | a failed `fopen` reports `open failed` with nothing changed; a full table reports `too many open files`, with the stream closed and no slot or stream changed; otherwise the lowest free handle is returned and resolves to the new stream at position 0, with other handles unchanged |
| `FileCalls.OpenMissingPath` | kui/src/filesystem.c:42-50 | `missing path` is reported exactly when there is no argument object or its `path` is not a string, with nothing changed |
| `FileCalls.ReadReports` | kui/src/filesystem.c:84-88 | `bad handle` is reported exactly when the handle resolves to no stream, and then nothing changes |
| `FileCalls.ReadReturnsChunk` | kui/src/filesystem.c:90-110 | a read on a live handle returns exactly the `n` bytes at the position, encoded as `kui_b64_encode` writes them, with `n` the request clamped to 4 MiB and to what remains; `n = 0` is a success with empty text; only that stream changes, and only its position, which advances by `n` |
| `FileCalls.WriteReports` | kui/src/filesystem.c:127-145 | a dead handle or missing `b64` reports `args`, and a failed decode reports `b64 decode`, with nothing changed; otherwise the count `fwrite` accepted is reported, short or not; only that stream changes: the position advances past those bytes, they read back from the old position, the bytes before and after them are kept, a gap past the old end is zeros, and the file grows only as far as the write reaches |
| `FileCalls.SeekReports` | kui/src/filesystem.c:176-185 | a dead handle or a failed seek reports `seek` and changes nothing; otherwise the new position is reported and becomes the stream's position, its contents and every other stream unchanged; the table never changes |
| `FileCalls.WriteAtFrame` | kui/src/filesystem.c:140 | `fwrite` at a position keeps the bytes before and after those written, fills a gap past the old end with zeros, and grows the file only as far as the write reaches |
| `FileCalls.CloseTwice` | kui/src/filesystem.c:197-205 | closing a live handle reports success, removes its stream and frees the handle; closing it again reports `bad handle` and changes nothing |
| `FileCalls.OpenFirst` | kui/src/filesystem.c:41-69 | open with mode `w+b`, which truncates, on the empty table returns handle 1 for a new empty stream at position 0 |
| `FileCalls.ReadBack` | kui/src/filesystem.c:90-110 | a read from the start of a stream asking for at least all of it returns all of it, encoded as written |
| `FileCalls.CloseThenRead` | kui/src/filesystem.c:197-205 | after a close, reading the same handle reports `bad handle` |
| `FileCalls.Session` | kui/src/filesystem.c:41-209 | open with `w+b`, write, seek to 0, read more than was written, close and read again from the empty table reply with handle 1, the count written, position 0, exactly the bytes written encoded as `kui_b64_encode` writes them, success and `bad handle` |
| `Kui.ResultCode` | kui/include/kui/kui.h:9-19 | results are numbered 0 to 8, with 0 exactly for `KUI_OK` |
| `Kui.StateCode` | kui/include/kui/kui.h:21-26 | states are numbered 0 to 3, with 0 exactly for `KUI_STATE_NONE` |
| `Kui.ResultCodesDistinct` | kui/include/kui/kui.h:9-19 | distinct results carry distinct codes |
| `Kui.Digits` | kui/src/kui.c:109 | `%d` of a number is a non-empty run of decimal digits |
| `Kui.ParseDigitsOf` | kui/src/kui.c:109 | the digits `%d` prints read back as the number |
| `Kui.Snprintf` | kui/src/kui.c:107-110 | `snprintf` keeps a prefix shorter than the buffer, and the whole text when it fits |
| `Kui.ParseVersionText` | kui/src/kui.c:104-110 | the version text gives back its prefix and three numbers, and has a dash exactly when the prefix is not empty |
| `Kui.VersionOfBuild` | kui/src/kui.c:101-113 | this build's version is `dev-1.1.1`, an empty prefix would give `1.1.1`, and the reply `{"version":"dev-1.1.1"}` fits `json[64]` whole |
| `Kui.StripSchemeSpec` | kui/src/kui.c:138-139 | a leading `kui:/` in any letter case is removed, and a URL without one is unchanged |
| `Kui.StripSchemeExamples` | kui/src/kui.c:139 | `kui:/html/a.html` and `KUI:/js/x.js` lose the prefix, only one prefix is removed, and `kui:a` is kept |
| `Kui.ResolveSpec` | kui/src/kui.c:115-166 | `kui:/<path>` resolves like `<path>`; `not found` is reported exactly when the path is not in the table; a found resource comes back with its MIME type and its bytes encoded as `kui_b64_encode` writes them, a text that decodes back to those bytes exactly when their length is a multiple of three |
| `Kui.ResolveMissing` | kui/src/kui.c:138-146 | resolving `kui:/html/missing.html` against a table without it reports `not found` |
| `Kui.EffectiveSpec` | kui/src/kui.c:173-175 | a given title and positive sizes are kept, anything else takes its default (`KUI Window`, 900, 600), so the window is always sized; defaulting again changes nothing |
| `Kui.Text` | kui/src/kui.c:32-35 | the C string handed to the webview has one character per byte |
| `Kui.InitSpecProps` | kui/src/kui.c:170-198 | `kui_init` from a state other than NONE reports `ALREADY_INITIALIZED` with nothing changed; a failed view leaves the state NONE; the call crashes exactly when the default page exists and the prelude does not; otherwise from NONE it succeeds, the state becomes INITIALIZED, and the title, size and two bindings precede any page content |
| `Kui.SetPageShowsRaw` | kui/src/kui.c:270-276 | `kui_set_page` shows the raw resource and then evaluates the prelude; without the prelude it dereferences NULL |
| `Kui.RunSpecProps` | kui/src/kui.c:200-213 | `kui_run` reports `NOT_INITIALIZED`, `ALREADY_RUNNING` or `DISPOSED` for the matching states with nothing changed; from INITIALIZED it runs, destroys the view and ends DISPOSED with no view |
| `Kui.NoRestart` | kui/src/kui.c:170-213 | init then run ends DISPOSED, after which neither init nor run changes anything |
| `Kui.Runtime.constructor` | kui/src/kui.c:20-23 | the globals start in NONE with no view and no prelude |
| `Kui.Runtime.Show` | kui/src/kui.c:29-52 | `set_html` and `js_eval` reach the webview only with a view and a non-empty text |
| `Kui.Runtime.SetPage` | kui/src/kui.c:270-276 | performs `kui_set_page` on the globals as `SetPageSpec` says |
| `Kui.Runtime.Init` | kui/src/kui.c:170-198 | performs `kui_init` on the globals as `InitSpec` says |
| `Kui.Runtime.Run` | kui/src/kui.c:200-213 | performs `kui_run` on the globals as `RunSpec` says |

## Left out

- The webview itself is not modelled: `webview_create`, `set_title`, `set_size`, `bind`, `set_html`, `eval`, `run`, `destroy` and `return`. Calls to it are entries in a log, and what `webview_create` returns is a parameter.
- Callbacks arriving while `webview_run` is running are not modelled. The transient RUNNING state is visible only to them.
- JSON parsing and printing (cJSON) are not modelled:
  - handler requests arrive parsed, as an optional map of fields;
  - replies are datatypes, not the JSON text they are printed to.
- `malloc`, `fopen` and `fwrite` are parameters: whether an allocation succeeds, what the opened file holds, and how many bytes `fwrite` accepts. The allocation failures inside `set_html` and `js_eval`, and the NULL return of `build_page_n`, are not modelled.
- Streams are a contents sequence and a position. Buffering, sharing one file between streams, and I/O errors are not modelled.
- `kui_b64_decode` is not part of this model. Its body is not in the library's C files, so `__fs_write` takes the decoder as a parameter.
- `kui_resource_find` and `kui_resource_mime` are a map from path to resource and a function parameter.
- `normalize_mode` returns its argument unchanged, and the model does not interpret the mode string.
- `FileCalls.ReadSpec`: a negative `max` is cast from `double` to `size_t` in the source, which is undefined. The model takes it as `Crash`.
- `FileCalls.SeekSpec`: `offset` is read through `valuedouble` and cast to `long long`; the model reads it as an integer.
- C integer widths are not modelled: `int`, `size_t`, `off_t` and the counters are unbounded. In particular `%d` prints non-negative version numbers.
- `Kui.Lower` folds ASCII letters only, as `strncasecmp` does in the C locale.
- `fs_init` is never called and only the two `__kui_` functions are bound, so the file handlers are unreachable from the page. They are modelled on their own.
- `kui_init` reads `args.debug`, but `KuiArgs` in `kui/include/kui/kui.h` has no such field. The model's `KuiArgs` has none, and `Create` carries no debug flag.
- `kui_set_page` shows the resource as is and then evaluates the prelude. `build_page_n`, which assembles a page with the prelude inlined, is called nowhere. The model follows the code: `Page.BuildPage` is modelled on its own, and `Kui.SetPageSpec` uses the raw page.
- Kui.Text: the buffer handed to the webview holds every byte, but the webview reads it as a NUL-terminated string, so what it shows stops at the first zero byte. The model keeps the bytes after it.

## Findings

| source | as written | input that shows it | evidently intended | confidence | as-written member | corrected member |
|---|---|---|---|---|---|---|
| kui/src/kui.c:82-92 | `i` only advances while `i < len`, so `i <= len` always holds and the `'='` branches never run; a final group of one or two bytes is completed with `A`s | the one byte `0x41` encodes as `QQAA`, which decodes to `41 00 00`; standard Base64 is `QQ==` | the padding of section 4 of RFC 4648, so that decoding gives the bytes back | not executed | `Base64.AsWrittenOneOctet`, `Base64.AsWrittenPadsWithA`, `Base64.AsWrittenCollides` | `Base64.DecodeEncode`, `Base64.EncodePadsShortGroup` |
| kui/src/kui.c:65-70 | the loop guard `k + 2 < sizeof(buf)` lets `k` reach 511, leaving no room for the `"`, `}` and NUL written after the loop | a message of 500 plain characters makes 513 writes into `char buf[512]` | stop copying while the closing `"}` and the NUL still fit | not executed | `ErrorReply.AsWrittenOverflows`, `ErrorReply.AsWrittenInBounds` | `ErrorReply.ReplyErr`, `ErrorReply.FitCountMaximal` |

The read handler and the resolve reply call the encoder as written, as the
library does, so their lemmas state what that encoding gives back. The
corrected encoder `Base64.Encode` is modelled beside it, with its round trip
proved.
