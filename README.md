# tv_grab_dvb SI pipeline in Dafny

tv_grab_dvb reads the DVB service information carried in an MPEG-2 transport
stream and turns it into programme listings. This project models its core
and proves properties of that model:

- **Section framing** (`dvb/read.c`). A buffer and cursor find PSI/SI sections
  (section 2.4.4 of ISO/IEC 13818-1) in a byte stream. Framing skips PES
  prefixes and resynchronises one byte at a time when the CRC fails.
- **Table registry** (`dvb/read.c`). Each demux context keeps a registry that
  collects the sections of every table, lets newer versions supersede older
  ones and reports when a table is complete.
- **Wire-field arithmetic** (`dvb/si_tables.h`, `dvb-eit.c`). This covers HILO,
  BCD times, MJD to epoch, the MJD to calendar routine of Annex C of ETSI
  EN 300 468, 12-bit section lengths and the logical channel number layout.
- **Table decoders.** These are the SDT and NIT walkers (sections 5.2.3 and
  5.2.1 of ETSI EN 300 468) and the EIT event decoder with its eight ordered
  descriptor passes (section 5.2.4). `dvb/si.c` dispatches tables to them by
  table_id.
- **Text** (`dvb_text_iconv.c`). The character-table selector of Annex A of
  ETSI EN 300 468 picks a charset, and converted code units are escaped as XML.
- **Registries.** Networks, services, multiplexes and platforms are keyed by
  identity, and each event keeps its strings per language.
- **Small parts.** `lookup.c` searches a sentinel-terminated table, and
  `dvb/gentables.c` splits bit fields into declarations.

Most modules follow one source file. The table says which files each one covers.

| module | source |
|---|---|
| `Wrappers` | an Option type, and `Reading`: whether a decoder follows the code as written or its evident intent |
| `Format` | `%04x`, `%d` and fixed-width text |
| `Wire` | the byte, BCD, MJD and header macros and the LCN layout |
| `Calendar` | parseMJD with exact integer arithmetic, and a `timegm` model |
| `TextIconv` | the selector table and `xmlify` |
| `Lookup` | `lookup` |
| `Registry` | the find-by-key, uniqueness and first-non-zero foreach pattern that `dvb/services.c`, `dvb/multiplexes.c`, `dvb/platforms.c` and `dvb/networks.c` share |
| `Services`, `Multiplexes`, `Platforms`, `Networks` | their C files |
| `Demux` | `dvb/read.c` |
| `Sdt`, `Nit` | `dvb/sdt.c`, `dvb/nit.c` |
| `Si` | `dvb/si.c` with `dvb/pat.c` |
| `Events` | `dvb/events.c` |
| `EitDescriptors` | the descriptor handlers and `parseDescription` of `dvb-eit.c` |
| `EitTable` | `parseEIT` |
| `GenTables` | `add_field`, `write_table`, `free_fields` |

Where the C code updates records in place, the model has a class with the
same state: `Demux.Reader` holds the 8192-byte buffer as an `array`, the input
and the tables, and there are `Services.ServiceList`, `Multiplexes.MuxList`,
`Platforms.PlatformList`, `Networks.NetworkList`, `Events.Event`,
`TextIconv.Xmlifier`, `EitTable.Grabber` and `GenTables.FieldSet`. Their methods
carry the loops of the C code. Each method's `ensures` equates the new state
and its result with a pure specification function of the old state. The
properties are then proved about those functions.

Some inputs come from outside the core. They are parameters of the model:

- the CRC check (`Demux.Crc`);
- the iconv conversion (`TextIconv.Converter`);
- `get_channelident`, the `strftime` text of a time and `time()` (`EitTable.Env`);
- the byte source, which is the input sequence of `Demux.Reader`.

The C code reads bytes past the end of a section or buffer. The model reads
such bytes as 0 (`Wire.At`).

Five places in the decoders do not do what the code around them expects (see
"## Findings"): the ident network_add_dvb makes, the version and date tests
of parseEIT, the pair loop of parseContentDescription and the part number of
the 0x10 text selector. The decoders take a `Wrappers.Reading` that chooses
between them: `AsWritten` follows the code as written, `Corrected` the evident
intent. The NIT decoder and `TextIconv.XmlifyText` take it as a parameter,
and the EIT decoder as a field of `EitTable.Env`; the EIT descriptor passes
run the content descriptor through `EitDescriptors.ContentBy`, which picks
`ContentAsWritten` or `Content` by it. Contracts that do not name a reading
hold under both.

## Model

| member | source | states |
|---|---|---|
| Format.HexDigit | dvb_text_iconv.c:142-145 | the digit character of a nibble reads back as that nibble |
| Format.HexDigits | dvb/multiplexes.c:66 | `%x` produces lower-case hex digits with no leading zero |
| Format.HexDigitsRoundTrip | dvb/multiplexes.c:66 | the hex text of n reads back as n |
| Format.ZeroPadKeepsValue | dvb/services.c:71 | zero padding to the `%04x` width does not change the value |
| Format.Hex04RoundTrip | dvb/multiplexes.c:66 | `%04x` of n reads back as n, and has 4 characters when n < 0x10000 |
| Format.Hex04Injective | dvb/networks.c:72 | distinct numbers give distinct `%04x` texts |
| Format.DecDigitsRoundTrip | dvb/gentables.c:411 | `%d` of a natural number reads back as that number |
| Format.Decimal | dvb/gentables.c:411 | `%d` of an int starts with '-' iff it is negative, else reads back as the number |
| Format.Take | dvb/networks.c:156-159 | truncation gives a prefix of at most n elements, and the whole input when it is short enough |
| Wire.CString | dvb/sdt.c:127-149 | the text up to the first NUL: a prefix with no NUL, followed by NUL when shorter than the input |
| Wire.StringField | dvb/sdt.c:138-148 | a length-prefixed field copied up to its length or its first NUL byte |
| Wire.StringFieldSlice | dvb/sdt.c:138-148 | a NUL-free field inside a block reads back as exactly its bytes |
| Wire.Hilo | dvb/si_tables.h:33 | HILO gives hi·256 + lo, below 65536, and splits back into the two bytes |
| Wire.Length12 | dvb/si_tables.h:51 | a 12-bit length is the low nibble of the first byte times 256 plus the second byte |
| Wire.CInt | dvb/si_tables.h:36 | a value taken to a 32-bit C int: in range and equal modulo 2^32 |
| Wire.Hilo4 | dvb/si_tables.h:36 | a big-endian 32-bit value whose halves are HILO of the byte pairs |
| Wire.Hilo4AsWritten | dvb/si_tables.h:36 | the macro as written is a signed 32-bit value, HILO4 of byte 4, 2, 3 and 4 again |
| Wire.Hilo4AsWrittenNeverFive | dvb/si_tables.h:36 | HILO4 as written never yields 5 for any four bytes |
| Wire.Hilo4SpecifierFive | dvb/si_tables.h:36 | bytes 00 00 00 05 give 5 under the corrected HILO4 and 0x05000005 as written |
| Wire.BcdRoundTrip | dvb/si_tables.h:44-46 | a checked BCD byte decodes to at most 99 and re-encodes to itself, and every n ≤ 99 round-trips |
| Wire.BcdExample | dvb/si_tables.h:44-46 | BCD 0x23 decodes to 23 and a nibble above 9 is rejected as invalid BCD |
| Wire.BcdTimeRoundTrip | dvb/si_tables.h:39-41 | BcdTimeToSeconds of the BCD hours, minutes and seconds of t is t |
| Wire.MjdToEpochTime | dvb/si_tables.h:38 | the C int product for a 16-bit MJD: in 32-bit range and congruent to (MJD − 40587) × 86400 modulo 2^32 |
| Wire.MjdToEpochTimeExact | dvb/si_tables.h:38 | from MJD 15732 (1901-12-14) to 65442 (2038-01-19) nothing wraps: MJD 40587 maps to epoch 0 and every day adds 86400 seconds |
| Wire.MjdToEpochTimeWraps | dvb/si_tables.h:38 | one day past either end the product wraps: MJD 65443 gives a negative time and MJD 15731 a positive one |
| Wire.SectionLength | dvb/si_tables.h:51 | the section length is at most 4095, so a section spans at most 4098 bytes |
| Wire.VersionNumber | dvb/si_tables.h:111-113 | byte 5 is two reserved bits, the 5-bit version and the current_next bit |
| Wire.DecodeLcn | dvb/si_tables.h:1638-1653 | an LCN entry has a 16-bit service id and a 10-bit channel number |
| Wire.LcnRoundTrip | dvb/si_tables.h:1638-1653 | encoding an entry in the little-endian bit-field layout and decoding it gives the entry back |
| Calendar.TruncDiv | dvb-eit.c:218-219 | C's truncating division of a double cast to int, for both signs |
| Calendar.ParseMjd | dvb-eit.c:216-229 | midnight of the Annex C day; months 14 and 15 move into the next year, keeping 12 × year + month fixed |
| Calendar.Timegm | dvb-eit.c:119-128 | the seconds of the day of the epoch value are those of hour, minute and second |
| Calendar.ParseMjdRange | dvb-eit.c:216-229 | the month 14/15 correction adds one year and takes 14 from the month; tm_mon is 0-based |
| Calendar.ParseMjdExamples | dvb-eit.c:216-229 | 45218 is 1982-09-06, 40587 is 1970-01-01 and 51603 is 2000-02-29 |
| Calendar.TimegmAddsDuration | dvb-eit.c:119-128 | adding hours, minutes and seconds to a broken-down time adds them to its epoch value |
| Calendar.MjdAgreesWithEpoch | dvb/si_tables.h:38 | parseMJD followed by timegm agrees with MjdToEpochTime on four dates |
| TextIconv.SelectAsWritten | dvb_text_iconv.c:24-29 | as written, only the 0x10 selector differs from the corrected table: reserved iff the byte is reserved, and every other selector agrees with Select |
| TextIconv.Escape | dvb_text_iconv.c:104-149 | the escaping of a converted text has at most 8 characters per code unit |
| TextIconv.Select | dvb_text_iconv.c:15-71 | reserved selectors, 1-byte, 3-byte and default selectors, each iff its byte range matches |
| TextIconv.SelectExamples | dvb_text_iconv.c:19-29 | 0x01 and 0x0B choose ISO-8859-5 and -15; 0x10 00 07 chooses ISO-8859-7 after 3 bytes |
| TextIconv.VariableSelectorIgnoresField | dvb_text_iconv.c:24-29 | as written, 0x10 00 07 selects a part number unrelated to the field (ISO-8859-0 when those bytes are 0); corrected, ISO-8859-7 |
| TextIconv.HexRef | dvb_text_iconv.c:142-145 | the hex digits of a code unit with leading zero nibbles suppressed |
| TextIconv.HexRefValue | dvb_text_iconv.c:142-145 | the suppressed-zero hex digits read back as the code unit |
| TextIconv.EscapeUnit | dvb_text_iconv.c:106-148 | one code unit escapes to 1 to 8 characters |
| TextIconv.EscapeCases | dvb_text_iconv.c:107-147 | pass-through, `&amp;`, `&lt;`, `&gt;` and `&#x…;` cases; `"` and `'` are not escaped |
| TextIconv.CharacterReferenceExamples | dvb_text_iconv.c:134-147 | 0x07 escapes to `&#x7;` and 0x20AC to `&#x20AC;` |
| TextIconv.EscapeAppend | dvb_text_iconv.c:104-149 | escaping distributes over concatenation |
| TextIconv.UnescapeUnit | dvb_text_iconv.c:106-148 | an XML reader recovers each escaped code unit |
| TextIconv.EscapeRoundTrip | dvb_text_iconv.c:104-149 | unescaping the escaped text gives back every code unit: the escaping loses nothing |
| TextIconv.IllegalAppend | dvb_text_iconv.c:134-137 | the diagnostics of a text are those of its parts in order |
| TextIconv.Text | dvb_text_iconv.c:80-97 | the text iconv converts is the C string after the selector bytes of the field itself, with no NUL |
| TextIconv.XmlifyText | dvb_text_iconv.c:77-153 | the selector comes from the field's first byte; for 0x10 the part number comes from the two stray bytes as written and from the field's next two bytes when corrected; the escaped text has at most 8192 characters (1024 units of at most 8), within the 10240-byte result buffer, and is empty for a reserved selector |
| TextIconv.CStringTerminated | dvb_text_iconv.c:96-97 | a NUL-free string followed by its terminator reads back as itself |
| TextIconv.XmlifyVariableField | dvb_text_iconv.c:24-29 | corrected, the field 10 00 07, a NUL-free string and NUL gives the escaped ISO-8859-7 conversion of exactly that string, whatever the stray bytes |
| TextIconv.XmlifyVariableAsWritten | dvb_text_iconv.c:24-29 | as written, a field 10 n1 n2, a NUL-free string and NUL gives the escaped conversion from ISO-8859-N, where N is read from the stray bytes and not from n1 n2 |
| TextIconv.XmlifyFixedField | dvb_text_iconv.c:19-23 | the field 05, a NUL-free string and NUL gives the escaped ISO-8859-9 conversion of exactly that string |
| TextIconv.Xmlifier.Xmlify | dvb_text_iconv.c:77-153 | the selector of the given reading (the 0x10 part number from the stray bytes as written, from the field when corrected); the output is the escaped conversion of the text after it; the converter is reopened only when the charset differs from cs_old; the diagnostics are the C0 and 0x7F units |
| TextIconv.Convert | dvb_text_iconv.c:97-101 | the conversion yields at most 1024 UCS-2 units, the size of the output buffer |
| TextIconv.Xmlifier.EscapeInto | dvb_text_iconv.c:103-151 | the cursor loop writes exactly the escaped text and logs exactly the illegal units |
| TextIconv.Xmlifier.PutUnit | dvb_text_iconv.c:106-148 | one switch case appends the unit's escape at the cursor |
| Lookup.StopAt | lookup.c:9-11 | the search stops at the first matching entry or the −1 sentinel, whichever comes first |
| Lookup.Find | lookup.c:6-18 | the pointer loop returns the description of the entry StopAt reaches, with the table unchanged |
| Lookup.FindsFirstMatch | lookup.c:9-11 | the first matching entry with a description gives that description |
| Lookup.UnknownAtSentinel | lookup.c:12-16 | reaching the sentinel gives "Unknown ID: " and the id in hex |
| Registry.IndexOf | dvb/services.c:89-101 | the first record with the key, and None iff no record has it |
| Registry.UniqueIndex | dvb/services.c:89-101 | in a duplicate-free list every record is found at its own index |
| Registry.ReplaceKeepsIndex | dvb/services.c:76-86 | replacing a record by one with the same key keeps every lookup and uniqueness |
| Registry.AppendKeepsIndex | dvb/services.c:54-61 | appending an absent key finds it last, keeps the other lookups and keeps uniqueness |
| Registry.FirstNonZero | dvb/services.c:271-287 | a foreach result is 0 iff every callback returned 0, and otherwise a callback's result |
| Registry.ForeachStopsAtFirst | dvb/services.c:271-287 | foreach returns the result of the first callback that returned non-zero |
| Registry.Clip | dvb/services.c:179-182 | setters keep a prefix below 128 characters, and the whole text when it is shorter |
| Registry.Text | dvb/services.c:185-192 | getters return NULL iff the field is empty |
| Services.Reset | dvb/services.c:76-86 | reset keeps uri and data and sets version −1, type 0xFF, no mux and empty strings |
| Services.Add | dvb/services.c:45-64 | a URI of 128 or more characters is rejected; else the existing or new record is reset, others' lookups unchanged, URIs stay unique |
| Services.LocateAdd | dvb/services.c:116-125 | an existing service is returned unchanged; else it is added; uniqueness is kept |
| Services.AddDvb | dvb/services.c:67-73 | service_add_dvb is service_add of the `dvb://%04x.%04x.%04x` URI and never fails |
| Services.LocateAddDvb | dvb/services.c:128-134 | service_locate_add_dvb is locate_add of the same URI and never fails |
| Services.DvbUriInjective | dvb/services.c:71 | the URI has 20 characters and distinct triples give distinct URIs |
| Services.DvbUriFields | dvb/services.c:71 | the three `%04x` fields sit at characters 6, 11 and 16 |
| Services.SetThenGet | dvb/services.c:179-224 | a getter after a setter returns the truncated text, or NULL for an empty one |
| Services.ServiceList.Locate | dvb/services.c:89-101 | the search loop finds the first service with the URI |
| Services.ServiceList.Register | dvb/services.c:45-64 | service_add on the list equals Add |
| Services.ServiceList.LocateRegister | dvb/services.c:116-125 | service_locate_add on the list equals LocateAdd |
| Services.ServiceList.RegisterDvb | dvb/services.c:67-73 | service_add_dvb on the list equals AddDvb |
| Services.ServiceList.LocateRegisterDvb | dvb/services.c:128-134 | service_locate_add_dvb on the list equals LocateAddDvb |
| Services.ServiceList.ResetAt | dvb/services.c:76-86 | service_reset changes only that record, to its reset form |
| Services.ServiceList.SetName | dvb/services.c:179-182 | only the name changes, truncated |
| Services.ServiceList.SetProvider | dvb/services.c:195-198 | only the provider changes, truncated |
| Services.ServiceList.SetAuthority | dvb/services.c:211-214 | only the authority changes, truncated |
| Services.ServiceList.SetType | dvb/services.c:155-158 | only the type changes |
| Services.ServiceList.SetMux | dvb/services.c:167-170 | only the multiplex changes |
| Services.ServiceList.SetData | dvb/services.c:143-146 | only the data changes |
| Services.ServiceList.Foreach | dvb/services.c:271-287 | the loop visits in insertion order and returns the first non-zero result |
| Multiplexes.Reset | dvb/multiplexes.c:71-79 | reset keeps uri and data and clears the platform |
| Multiplexes.Add | dvb/multiplexes.c:40-59 | a URI of 128 or more characters is rejected; else the existing record is reset or a new one appended; URIs stay unique |
| Multiplexes.LocateAdd | dvb/multiplexes.c:106-115 | an existing multiplex is returned unchanged; else it is added |
| Multiplexes.LocateAddDvb | dvb/multiplexes.c:118-124 | mux_locate_add_dvb is locate_add of `dvb://%04x.%04x` and never fails |
| Multiplexes.DvbUriInjective | dvb/multiplexes.c:66 | the URI has 15 characters and distinct pairs give distinct URIs |
| Multiplexes.MuxList.Locate | dvb/multiplexes.c:82-94 | the search loop finds the first multiplex with the URI |
| Multiplexes.MuxList.Register | dvb/multiplexes.c:40-59 | mux_add on the list equals Add |
| Multiplexes.MuxList.LocateRegister | dvb/multiplexes.c:106-115 | mux_locate_add on the list equals LocateAdd |
| Multiplexes.MuxList.LocateRegisterDvb | dvb/multiplexes.c:118-124 | mux_locate_add_dvb on the list equals LocateAddDvb |
| Multiplexes.MuxList.ResetAt | dvb/multiplexes.c:71-79 | mux_reset changes only that record |
| Multiplexes.MuxList.SetPlatform | dvb/multiplexes.c:145-148 | only the platform changes |
| Multiplexes.MuxList.SetData | dvb/multiplexes.c:133-136 | only the data changes |
| Multiplexes.MuxList.Foreach | dvb/multiplexes.c:181-197 | the loop returns the first non-zero result |
| Platforms.Add | dvb/platforms.c:21-40 | a URI of 64 or more characters is rejected; an existing record is returned unchanged (reset does nothing); else one is appended |
| Platforms.LocateAdd | dvb/platforms.c:76-85 | an existing platform is returned unchanged; else it is added |
| Platforms.AddIsLocateAdd | dvb/platforms.c:21-40 | when every stored URI fits, platform_add and platform_locate_add agree |
| Platforms.LocateAddDvb | dvb/platforms.c:88-94 | platform_locate_add_dvb is locate_add of `dvb://%04x` and never fails |
| Platforms.DvbUriInjective | dvb/platforms.c:47 | the URI has 10 characters and distinct ids give distinct URIs |
| Platforms.PlatformList.Locate | dvb/platforms.c:52-64 | the search loop finds the first platform with the URI |
| Platforms.PlatformList.Register | dvb/platforms.c:21-40 | platform_add on the list equals Add |
| Platforms.PlatformList.LocateRegister | dvb/platforms.c:76-85 | platform_locate_add on the list equals LocateAdd |
| Platforms.PlatformList.LocateRegisterDvb | dvb/platforms.c:88-94 | platform_locate_add_dvb on the list equals LocateAddDvb |
| Networks.Reset | dvb/networks.c:77-87 | reset keeps ident and data and sets version −1, an empty name, no multiplexes and no services |
| Networks.Add | dvb/networks.c:46-65 | an ident of 32 or more characters is rejected; else the existing or new record is reset; idents stay unique |
| Networks.LocateAdd | dvb/networks.c:117-126 | an existing network is returned unchanged; else it is added |
| Networks.NidIsNotNit | dvb/networks.c:72 | no `dvb:nid:` ident equals any `dvb:nit:` ident |
| Networks.AddDvbAsWrittenNotLocated | dvb/networks.c:68-74 | as written, network_locate_dvb does not find what network_add_dvb added |
| Networks.AddDvbLocated | dvb/networks.c:68-74 | corrected, network_locate_dvb finds the network network_add_dvb added |
| Networks.NitIdentInjective | dvb/networks.c:109 | the ident has 12 characters and distinct ids give distinct idents |
| Networks.AddMux | dvb/networks.c:184-207 | an existing multiplex leaves the network unchanged; a new one is appended at the end |
| Networks.AddMuxIdempotent | dvb/networks.c:184-207 | adding a multiplex twice equals adding it once, and the list stays duplicate-free |
| Networks.FindService | dvb/networks.c:265-277 | the live slot with the (lcn, sublcn) pair, and None iff there is none |
| Networks.SetService | dvb/networks.c:217-262 | an existing pair is updated in place or cleared by NULL; a new pair is appended |
| Networks.SetServiceSound | dvb/networks.c:217-262 | at most one live slot per pair is kept, the pair is then found as reported, and other pairs are unaffected |
| Networks.SetNameThenName | dvb/networks.c:156-169 | network_name after network_set_name gives the truncated name, or NULL for an empty one |
| Networks.NetworkList.Locate | dvb/networks.c:90-102 | the search loop finds the first network with the ident |
| Networks.NetworkList.Register | dvb/networks.c:46-65 | network_add on the list equals Add |
| Networks.NetworkList.LocateRegister | dvb/networks.c:117-126 | network_locate_add on the list equals LocateAdd |
| Networks.AddDvbInAdds | dvb/networks.c:68-74 | under either reading the network is made or reset under its ident; corrected, network_locate_dvb then finds it; as written, it finds only what it found before |
| Networks.NetworkList.RegisterDvb | dvb/networks.c:68-74 | network_add_dvb on the list equals the corrected AddDvb |
| Networks.NetworkList.RegisterDvbAsWritten | dvb/networks.c:68-74 | network_add_dvb on the list equals AddDvb as written, with the `dvb:nid:%04x` ident |
| Networks.NetworkList.LocateDvbId | dvb/networks.c:105-111 | network_locate_dvb finds the `dvb:nit:%04x` ident |
| Networks.NetworkList.ResetAt | dvb/networks.c:77-87 | network_reset changes only that record |
| Networks.NetworkList.SetName | dvb/networks.c:156-159 | only the name changes, truncated |
| Networks.NetworkList.SetData | dvb/networks.c:143-147 | only the data changes |
| Networks.NetworkList.SetVersion | dvb/networks.c:172-175 | only the version changes |
| Networks.NetworkList.AddMuxTo | dvb/networks.c:184-207 | the search-then-append loop equals AddMux |
| Networks.NetworkList.ServiceOf | dvb/networks.c:265-277 | network_service finds the live slot of the pair |
| Networks.NetworkList.SetServiceOf | dvb/networks.c:217-262 | the slot loop equals SetService on that network |
| Demux.Payloads | dvb/read.c:222-237 | a complete table has one section in every slot |
| Demux.Reset | dvb/read.c:346-360 | table_reset keeps the table id and leaves version −1 and `count` empty slots |
| Demux.Find | dvb/read.c:258-260 | the first table with the id, and None iff there is none |
| Demux.Alloc | dvb/read.c:318-343 | the table of that id is reused, else one is appended; it is reset; no other table changes; ids stay unique |
| Demux.Store | dvb/read.c:299-300 | the section fills slot secnum; a number past the slots stores nothing |
| Demux.SectionAdd | dvb/read.c:252-315 | the table of that id is found or appended, no other table changes, and ids stay unique |
| Demux.SectionAddVersions | dvb/read.c:263-294 | an older version is discarded; a newer one restarts at last+1 slots; a complete table restarts; a filled slot is a no-op |
| Demux.SlotOverrunExample | dvb/read.c:288-313 | as written, section 1 of a table whose last section is 0 is stored past the single slot; the model stores nothing |
| Demux.ReadSection | dvb/read.c:185-249 | for a versioned id the table is reported iff complete; any other id is reported as a one-slot table |
| Demux.FoundAfterAdd | dvb/read.c:252-315 | after section_add the table is found at the index it returned |
| Demux.ReportedIsFound | dvb/read.c:222-237 | a reported table is the stored table of that id |
| Demux.Classify | dvb/read.c:58-94 | fewer than 3 bytes need 3 − size; a partial section needs the rest; 00 00 01 skips; a CRC failure resyncs; else the section is delivered; a need never passes 4098 |
| Demux.ReadFrom | dvb/read.c:33-182 | the unread input is always a suffix of the input |
| Demux.ReadFromSound | dvb/read.c:33-182 | table ids stay unique, and a reported versioned table is complete and stored |
| Demux.TrailingBytesDropped | dvb/read.c:93-94 | bytes after a valid section do not affect the result |
| Demux.CrcFailureSkipsOneByte | dvb/read.c:87-92 | a CRC failure advances the start by exactly one byte |
| Demux.PesSkipped | dvb/read.c:70-76 | a PES start discards the whole buffer |
| Demux.SectionDelivered | dvb/read.c:93-98 | a valid section goes to read_section, and the loop returns if a table is reported |
| Demux.ReadMore | dvb/read.c:58-61 | when bytes are needed, at most `need` input bytes are appended |
| Demux.EndOfData | dvb/read.c:154-170 | an empty input ends the read with no table |
| Demux.CompletesOnLastSection | dvb/read.c:222-237 | sections 0..n−1 of one new version, in order, fill the slots one by one and report only on the last |
| Demux.DistinctBelow | dvb/read.c:233-237 | distinct slot numbers below n are at most n, and cover every slot iff there are n of them |
| Demux.FreshTableStoredAt | dvb/read.c:269-274 | any section of a newer version restarts the table with n slots of which only its own is filled, and completes it iff n = 1 |
| Demux.EmptySlotFilled | dvb/read.c:282-300 | a section of the same version fills its empty slot and no other, and the table is reported iff every slot is then filled |
| Demux.LastArrival | dvb/read.c:252-300 | the sections before the last of a distinct arrival are distinct too, and the last one's number is new |
| Demux.ReportsStep | dvb/read.c:222-237 | the next report keeps "reported exactly at the n-th arrival" |
| Demux.FirstArrival | dvb/read.c:252-300 | the first arrival of a new version fills only its own slot and is reported iff the table has one section |
| Demux.CompletesInAnyOrder | dvb/read.c:222-300 | distinct sections of one new version, in any order, fill exactly their slots; the table is reported exactly at the arrival that fills the last empty slot, the n-th, and never before |
| Demux.NewerVersionAdded | dvb/read.c:263-274 | the first section of a newer version leaves one filled slot of n, and reports iff n = 1 |
| Demux.FreshTableStored | dvb/read.c:269-274 | a newer version restarts with n slots of which only slot 0 is filled |
| Demux.NextSectionAdded | dvb/read.c:282-300 | section m fills slot m, and the table is reported iff m is the last |
| Demux.Reader.constructor | dvb/read.c:33-47 | a fresh 8192-byte buffer, no tables and the given input |
| Demux.Reader.TableReset | dvb/read.c:346-360 | only that table changes, to its reset form |
| Demux.Reader.SetVersion | dvb/read.c:273 | only the version of that table changes |
| Demux.Reader.StoreSection | dvb/read.c:299-300 | only that slot changes |
| Demux.Reader.TableAlloc | dvb/read.c:318-343 | the loop and the append equal Alloc |
| Demux.Reader.AddSection | dvb/read.c:252-315 | the version checks and the slot loop equal SectionAdd |
| Demux.Reader.Collect | dvb/read.c:185-249 | read_section on the registry equals ReadSection |
| Demux.Reader.Read | dvb/read.c:33-182 | the while(1) loop over the buffer equals ReadFrom on the input and the registry |
| Demux.Reader.Rebase | dvb/read.c:49-55 | from bufstart 1024 on, the unread bytes move to offset 0 and bufend drops by bufstart |
| Demux.Reader.Consume | dvb/read.c:66-98 | a skip, a resync or a delivery shrinks the window as Classify says |
| Demux.Reader.Refill | dvb/read.c:154-170 | a read appends min(need, remaining) input bytes at bufend and never passes the buffer |
| Demux.Reader.Examine | dvb/read.c:58-92 | the validations of the window equal Classify |
| Demux.Reader.Compact | dvb/read.c:51-53 | the memmove copies the unread bytes to offset 0 unchanged |
| Sdt.Describe | dvb/sdt.c:80-113 | tag 0x48 sets type, provider and name; tag 0x73 sets the authority; other tags change nothing |
| Sdt.Entry | dvb/sdt.c:57-121 | one service entry ends at its descriptor loop's end |
| Sdt.Descriptors | dvb/sdt.c:78-114 | the descriptor loop never changes the service's uri, data, version or multiplex |
| Sdt.EntryEffect | dvb/sdt.c:62-67 | an entry resets its service to version −1, links it to the found-or-created multiplex and changes no other service |
| Sdt.EntryCallback | dvb/sdt.c:69-72 | the callback list grows by the entry's service iff its loop is non-empty; an empty loop leaves the reset service |
| Sdt.TailEffect | dvb/sdt.c:75-120 | decoding the descriptors changes only that service, keeps every lookup and keeps links and uniqueness |
| Sdt.HeadEffect | dvb/sdt.c:62-67 | service_add_dvb and mux_locate_add_dvb give a reset service linked to a valid multiplex |
| Sdt.EntryValid | dvb/sdt.c:54-121 | an entry keeps URIs unique and every service's multiplex valid |
| Sdt.EntriesValid | dvb/sdt.c:54-121 | the entry loop keeps the same invariant |
| Sdt.ParseTable | dvb/sdt.c:35-124 | the sections in order up to the first that is not current; its properties are ParseTableValid, StopsAtNotCurrent and ParseTableGrows |
| Sdt.ParseTableValid | dvb/sdt.c:35-124 | decoding a whole table keeps the invariant |
| Sdt.StopsAtNotCurrent | dvb/sdt.c:49-52 | the first section that is not current ends decoding of the rest of the table |
| Sdt.ParseTableGrows | dvb/sdt.c:35-124 | decoding never removes a service or multiplex and only appends to the callback list |
| Sdt.EncodeServiceDescriptor | dvb/sdt.c:127-149 | the length byte covers the body of a service descriptor |
| Sdt.ServiceDescriptorRoundTrip | dvb/sdt.c:127-149 | decoding an encoded service descriptor sets exactly its type, provider and name |
| Sdt.AuthorityRoundTrip | dvb/sdt.c:152-164 | decoding an encoded authority descriptor sets exactly the authority |
| Sdt.DescribeAt | dvb/sdt.c:80-113 | the switch on the tag equals Describe on that service |
| Sdt.ParseEntry | dvb/sdt.c:62-121 | one pass of the entry loop equals Entry |
| Sdt.ParseSectionInto | dvb/sdt.c:54-121 | the entry loop of a section equals ParseSection |
| Sdt.ParseSdt | dvb/sdt.c:35-124 | the section loop equals ParseTable on the table's sections |
| Nit.NameDescriptor | dvb/nit.c:192-204 | tag 0x40 sets the network name; other tags change nothing |
| Nit.NameDescriptors | dvb/nit.c:80-91 | the network descriptor loop changes only the name |
| Nit.NetworkNameRoundTrip | dvb/nit.c:192-204 | decoding an encoded name descriptor sets the truncated name |
| Nit.LcnAt | dvb/nit.c:228-248 | each 4-byte entry has a 16-bit service id and a 10-bit number |
| Nit.LcnEntryEffect | dvb/nit.c:228-248 | the entry's service is found or created and linked to the multiplex, and its slot in the network holds (visible, lcn, −1); other pairs are unchanged |
| Nit.LcnEntryValid | dvb/nit.c:228-248 | an LCN entry keeps every identity unique and every link valid |
| Nit.TsHeadEffect | dvb/nit.c:101-110 | a TS entry finds or creates its platform and multiplex, links them and adds the multiplex to the network |
| Nit.TsHeadValid | dvb/nit.c:101-110 | the TS entry head keeps the invariant |
| Nit.TsEntriesValid | dvb/nit.c:101-114 | the TS loop keeps the invariant |
| Nit.BodyValid | dvb/nit.c:80-114 | decoding a section body keeps the invariant |
| Nit.ResolveEffect | dvb/nit.c:63-78 | a located network with version ≥ incoming aborts; otherwise the network is reset and takes the version; a located one is found again; a new one carries the reading's ident, and is then found when corrected but never found as written |
| Nit.Resolve | dvb/nit.c:63-78 | under either reading a resolved network index lies within the list, which never shrinks |
| Nit.ResolveValid | dvb/nit.c:63-78 | under either reading resolving keeps the invariant |
| Nit.ResolvedSections | dvb/nit.c:55-58 | the callback runs iff every section is current, and no network is removed |
| Nit.ParseTableReport | dvb/nit.c:39-189 | the callback runs iff all sections are current and the first resolves, with the network at the new version; it is found afterwards if it was found before or the reading is corrected, and as written a network not found before stays not found |
| Nit.FirstResolved | dvb/nit.c:63-78 | the network is resolved only on the first section and keeps its version; it is found afterwards if it was found before or the reading is corrected, and as written one not found before stays not found |
| Nit.AsWrittenAlwaysCallsBack | dvb/nit.c:63-78 | as written, a current table whose network is not found always makes the callback, and the network is still not found afterwards |
| Nit.RepeatedTableAsWritten | dvb/nit.c:63-78 | as written, the same table decoded twice makes the callback both times |
| Nit.RepeatedTableCorrected | dvb/nit.c:63-78 | corrected, a table that made the callback is stale the second time: no callback and nothing changes |
| Nit.NotCurrentKeepsEarlier | dvb/nit.c:55-58 | a section that is not current ends the table with no callback, keeping the earlier sections' effects |
| Nit.SectionsValid | dvb/nit.c:39-189 | the section loop keeps the invariant |
| Nit.ParseTable | dvb/nit.c:39-189 | the sections in order, the first resolving the network; its properties are ParseTableReport and ParseTableValid |
| Nit.ParseTableValid | dvb/nit.c:39-189 | decoding a whole table keeps the invariant |
| Nit.NameDescriptorsInto | dvb/nit.c:80-91 | the descriptor loop equals NameDescriptors |
| Nit.LcnsInto | dvb/nit.c:236-247 | the LCN loop equals Lcns |
| Nit.TsEntriesInto | dvb/nit.c:101-114 | the TS loop equals TsEntries |
| Nit.ResolveInto | dvb/nit.c:63-78 | locate, version check, network_add_dvb and reset on the list equal Resolve under the same reading |
| Nit.ParseNit | dvb/nit.c:39-189 | the section loop equals ParseTable on the table's sections under the same reading |
| Si.Route | dvb/si.c:31-51 | 0x00 goes to the PAT decoder, 0x40 to the NIT decoder, 0x42 and 0x46 to the SDT decoder |
| Si.Decode | dvb/si.c:31-51 | PAT and unhandled tables change nothing; the SDT decoder changes only services and multiplexes |
| Si.DecodeIsDecoder | dvb/si.c:39-43 | the dispatch runs exactly the NIT or the SDT decoder on the table's sections |
| Si.DecodeValid | dvb/si.c:31-51 | dispatching keeps the registries' invariant, and every visited service exists |
| Si.OtherTablesIgnored | dvb/si.c:44-50 | any other id, 0x41 and 0x4A included, changes nothing and reports no call |
| Si.DecodeInto | dvb/si.c:31-51 | the switch on the registries equals Decode |
| Events.NewSlot | dvb/events.c:342-394 | an empty string makes no slot; a language is truncated to 7 characters |
| Events.Locate | dvb/events.c:397-409 | the first slot with the language, and None iff none has it |
| Events.LastEmpty | dvb/events.c:380-393 | the last empty slot, and None iff every slot is full |
| Events.SetLangStr | dvb/events.c:342-394 | an existing language is replaced in place or cleared; a new one fills the last empty slot or is appended; an empty new string does nothing |
| Events.SetThenLocate | dvb/events.c:342-394 | after setting a non-empty string, the language is found with that string |
| Events.ClearThenLocate | dvb/events.c:348-379 | after an empty string, the language is no longer found |
| Events.SetKeepsOthers | dvb/events.c:342-394 | setting one language does not change where any other language is found |
| Events.SetKeepsOnePerLanguage | dvb/events.c:362-374 | at most one slot per language is kept, and the list grows by at most one |
| Events.LongLanguageDuplicates | dvb/events.c:342-394 | a language of 8 characters is stored truncated and then never found, so a second slot is added |
| Events.SetLangStrIn | dvb/events.c:342-394 | the slot loop equals SetLangStr |
| Events.Blank | dvb/events.c:51-68 | a new event has the id, no strings, audio and aspect EA_INVALID and no service |
| Events.Event.constructor | dvb/events.c:51-68 | event_alloc of an id below 64 characters gives a blank event |
| Events.Alloc | dvb/events.c:51-68 | event_alloc rejects an id of 64 or more characters |
| Events.Event.SetTitle | dvb/events.c:99-102 | the title list changes by SetLangStr, and the title is then found |
| Events.Event.SetSubtitle | dvb/events.c:124-127 | the sub-title list changes by SetLangStr, and the sub-title is then found |
| Events.Event.Title | dvb/events.c:105-114 | a title exists iff its language is located |
| Events.Event.Subtitle | dvb/events.c:130-139 | a sub-title exists iff its language is located among the sub-titles |
| Events.Event.SubtitleAsWritten | dvb/events.c:130-139 | as written, a sub-title found is one of the first ntitle sub-titles |
| Events.SubtitleBoundMisses | dvb/events.c:134 | as written, a sub-title is missed when the event has no titles; corrected, it is found |
| Events.Event.SetLang | dvb/events.c:83-86 | only the language changes, truncated |
| Events.Event.SetPcrid | dvb/events.c:174-177 | only the programme crid changes, truncated |
| Events.Event.SetScrid | dvb/events.c:213-216 | only the series crid changes, truncated |
| Events.Event.SetTransportUri | dvb/events.c:229-232 | only the transport URI changes, truncated |
| Events.Event.SetAudio | dvb/events.c:162-165 | only the audio changes |
| Events.Event.SetAspect | dvb/events.c:150-153 | only the aspect changes |
| Events.Event.SetTimes | dvb/events.c:257-272 | only the start and the duration change |
| Events.Event.SetService | dvb/events.c:245-248 | only the service changes |
| Events.Event.Finish | dvb/events.c:281-284 | event_finish minus the duration is the start |
| Events.Snprintf | dvb/events.c:189-199 | snprintf keeps a prefix of at most buflen − 1 characters |
| Events.QualifiedText | dvb/events.c:189-199 | a crid not starting with '/' gets "crid://"; otherwise the authority, or "undefined", is inserted |
| Events.Event.QualPcrid | dvb/events.c:179-200 | without a crid, "" and 0; a crid not starting with '/' gives its length + 7; otherwise the authority of the event's service is inserted, or "undefined" when there is no service or its authority is empty, so something always stands between "crid://" and the crid |
| Events.QualifiedCrid | dvb/events.c:180-200 | an empty crid gives "" and 0; the returned length is that of the full text; a large buffer holds it whole |
| EitDescriptors.Offsets | dvb-eit.c:242-246 | every descriptor offset lies inside the loop, and the first is its start |
| EitDescriptors.ValidateDescription | dvb-eit.c:317-328 | the loop holds iff some 0x4D descriptor has a non-empty event name |
| EitDescriptors.ShortEvent | dvb-eit.c:331-363 | pass 0 sets the title iff the name is non-empty; pass 1 sets a non-empty sub-title |
| EitDescriptors.ShortEventRoundTrip | dvb-eit.c:331-363 | decoding an encoded short event gives its name as title and its text as sub-title |
| EitDescriptors.LongItems | dvb-eit.c:379-396 | the item loop only adds pairs and stops at the end of the items |
| EitDescriptors.LongEvent | dvb-eit.c:366-410 | an empty descriptor is skipped; the open and close flags follow descriptor_number and last_descriptor_number |
| EitDescriptors.LongEventIn | dvb-eit.c:366-410 | the item loop equals LongEvent |
| EitDescriptors.Component | dvb-eit.c:417-478 | each pass gives at most one effect of its own rank; video and audio are first-seen per pass |
| EitDescriptors.AspectOfComponentType | dvb-eit.c:429-438 | video component types 1 to 4 give aspect type − 1 |
| EitDescriptors.CategoriesNew | dvb-eit.c:484-504 | every emitted category is non-zero, new and present in the descriptor |
| EitDescriptors.CategoriesDistinct | dvb-eit.c:484-504 | a category is emitted at most once per content descriptor |
| EitDescriptors.CategoriesCover | dvb-eit.c:484-504 | every non-zero category that was not yet seen is emitted |
| EitDescriptors.ContentPairsMissed | dvb-eit.c:486-504 | as written, the last pair is skipped and the user byte is read; corrected, every pair's category is emitted |
| EitDescriptors.ContentAsWritten | dvb-eit.c:481-507 | parseContentDescription as written, stopping two bytes early: it emits only non-zero categories |
| EitDescriptors.Content | dvb-eit.c:481-507 | every pair of the descriptor: it emits only non-zero categories; that they are new and distinct is CategoriesNew and CategoriesDistinct |
| EitDescriptors.CategoriesIn | dvb-eit.c:484-504 | the pair loop with its 256 `once` flags, all clear at the start, equals the category scan from an empty set of seen codes |
| EitDescriptors.ContentIn | dvb-eit.c:481-507 | the handler of the given reading equals ContentBy: as written, the pair scan offset by one byte that stops two bytes early; corrected, the scan of every pair up to the descriptor's end |
| EitDescriptors.ContentDescriptorReadings | dvb-eit.c:486-504 | in pass 3 the descriptor 54 02 10 00 emits no category as written and category 0x10 when corrected |
| EitDescriptors.Ratings | dvb-eit.c:510-528 | ratings 0x01 to 0x0F give ages 4 to 18 |
| EitDescriptors.RatingsRoundTrip | dvb-eit.c:516-526 | decoding encoded ratings gives rating + 3 for each rating 1 to 15, in order |
| EitDescriptors.ParentalRatingReadsAll | dvb-eit.c:510-528 | the loop reads every rating of a well-formed descriptor |
| EitDescriptors.ParentalRating | dvb-eit.c:510-528 | a descriptor of at most 2 bytes gives no rating |
| EitDescriptors.ContentIdentifier | dvb-eit.c:538-588 | every crid has a type below 64; the handler gives up only when some crid location is 1 |
| EitDescriptors.RatingsIn | dvb-eit.c:510-528 | the rating loop equals ParentalRating |
| EitDescriptors.Crids | dvb-eit.c:538-588 | every crid has a type below 64; a failure means some crid location is 1 |
| EitDescriptors.CridsRoundTrip | dvb-eit.c:538-588 | decoding encoded local crids gives each crid with its type, in order |
| EitDescriptors.Descriptor | dvb-eit.c:239-314 | each pass emits only effects of its own rank and never clears the `seen` flag of parseComponentDescription; the content tag runs ContentBy of the reading |
| EitDescriptors.DescriptorFacts | dvb-eit.c:239-314 | pass 0 sets a title iff the descriptor is a titled 0x4D; only passes 2 and 5 can end the program; only tag 0x5F changes the specifier; a video or audio effect comes alone, only while `seen` is clear, and sets it |
| EitDescriptors.Round | dvb-eit.c:242-311 | one pass over the loop never clears the `seen` flag |
| EitDescriptors.RoundRanks | dvb-eit.c:242-311 | one pass over the loop emits only effects of its own rank |
| EitDescriptors.RoundsOrdered | dvb-eit.c:239-314 | the passes emit their effects by increasing rank |
| EitDescriptors.Description | dvb-eit.c:239-314 | parseDescription emits title, sub-title, long text, category, components, crid, rating in that order, under either reading of the content descriptor |
| EitDescriptors.RoundFirstOnly | dvb-eit.c:429-446 | within pass 5 or 6 at most one video or one audio effect is emitted |
| EitDescriptors.DescriptionFirstOnly | dvb-eit.c:429-446 | a description sets at most one video and one audio |
| EitDescriptors.RoundZeroTitles | dvb-eit.c:331-363 | pass 0 sets a title iff some descriptor is a titled 0x4D |
| EitDescriptors.ValidatedIffTitled | dvb-eit.c:143-146 | validateDescription holds iff parseDescription sets a title |
| EitDescriptors.ApplyAppend | dvb-eit.c:239-314 | applying effects one list after another equals applying the joined list |
| EitDescriptors.PrintedOnly | dvb-eit.c:366-528 | long text, categories, teletext, ratings and unknown tags only print and leave the event unchanged |
| EitDescriptors.ApplyAllKeepsHeader | dvb-eit.c:239-314 | descriptors never change the event's id, service, start, duration or transport URI |
| EitDescriptors.ShortEventInto | dvb-eit.c:331-363 | the handler sets on the event exactly the effects of ShortEvent |
| EitDescriptors.ComponentInto | dvb-eit.c:417-478 | the handler sets on the event exactly the effects of Component |
| EitDescriptors.CridsInto | dvb-eit.c:538-588 | the crid loop sets on the event exactly the effects of ContentIdentifier |
| EitDescriptors.DescriptorInto | dvb-eit.c:248-310 | the switch on the tag equals Descriptor under the same reading, applied to the event |
| EitDescriptors.RoundBody | dvb-eit.c:243-310 | one turn of the descriptor loop applies the descriptor's effects and leaves the rest of the pass to give the same result |
| EitDescriptors.RoundInto | dvb-eit.c:242-311 | one pass of the descriptor loop equals Round under the same reading, applied to the event |
| EitDescriptors.DescriptionInto | dvb-eit.c:239-314 | the eight passes equal Description under the same reading, applied to the event |
| EitTable.SeenAsWrittenInverted | dvb-eit.c:79 | as written, a newer version ends the call and an older one is stored; corrected, the reverse |
| EitTable.BadDateAsWrittenFortnightDead | dvb-eit.c:133 | as written, the condition is stop < now − 86400 alone: an event 15 days ahead passes |
| EitTable.BadDateWindow | dvb-eit.c:132-133 | corrected, an event is kept iff it stops between a day ago and 14 days ahead |
| EitTable.NewerVersionReadings | dvb-eit.c:76-88 | stored version 3, incoming 4: as written the whole call ends there; corrected, the event counts one update |
| EitTable.AdmitDateAsWritten | dvb-eit.c:132-146 | as written, with ignore_bad_dates, an event with descriptors is dropped and counted iff it stops before now − 86400; a titled one stopping later is decoded however far ahead it stops |
| EitTable.AdmitDateCorrected | dvb-eit.c:132-146 | corrected, with ignore_bad_dates, an event with descriptors is dropped and counted iff it stops outside now − 86400 .. now + 14 days; a titled one inside is decoded |
| EitTable.BadDateEndsCall | dvb-eit.c:84-140 | under either reading a new event with a bad date ends the whole call: only its chninfo and one invalid date are added |
| EitTable.DurationOf | dvb-eit.c:125-128 | adding the BCD duration to the start time adds its seconds |
| EitTable.DurationIsBcd | dvb-eit.c:119-129 | the stop time is the start time plus BcdTimeToSeconds of the duration |
| EitTable.TransportUriFits | dvb-eit.c:152-161 | the transport URI has at most 62 characters and survives truncation |
| EitTable.AdmitGrows | dvb-eit.c:117-185 | one event adds at most one invalid date and at most one callback, and only appends |
| EitTable.DecodeGrows | dvb-eit.c:148-185 | a validated event counts one programme |
| EitTable.DecodeEmits | dvb-eit.c:173-183 | the callback runs iff the descriptors decode without ending the program |
| EitTable.EventStepUnique | dvb-eit.c:76-108 | (sid, eid) stays unique in the channel list, and updates grow by at most one |
| EitTable.EventStepStores | dvb-eit.c:76-108 | an event seen under the Env's reading ends the call; otherwise the channel is stored or updated with the incoming version |
| EitTable.AdmittedChecks | dvb-eit.c:113-148 | an admitted event has a non-empty titled loop and, with ignore_bad_dates, a date that is good under the Env's reading |
| EitTable.EmittedEvent | dvb-eit.c:93-183 | the emitted event has the channel ident, the service, the start, the BCD duration and the transport URI |
| EitTable.EventsUnique | dvb-eit.c:72-186 | the event loop keeps (sid, eid) unique and always ends by returning |
| EitTable.EventsGrow | dvb-eit.c:72-186 | the event loop only adds counts and callbacks |
| EitTable.SeenEndsCall | dvb-eit.c:78-80 | a (sid, eid) seen under the Env's reading ends the whole call with 0, not just the event |
| EitTable.EmptyLoopEndsCall | dvb-eit.c:113-115 | an event with an empty descriptor loop ends the call |
| EitTable.Events | dvb-eit.c:72-186 | the event loop always ends by returning or ending the call, never mid-loop |
| EitTable.ParseEit | dvb-eit.c:60-187 | a whole section ends the call, and only adds updates and counts |
| EitTable.Grabber.constructor | dvb-eit.c:60-187 | no channels and zero counts |
| EitTable.Grabber.Emit | dvb-eit.c:173-183 | after the descriptors the event is reported to the callback exactly when the scan completed, and the channels are unchanged |
| EitTable.Grabber.AllocateEvent | dvb-eit.c:84-108 | the ignore-updates return, the allocation failure, the new channel at the head of the list and the rest of the event equal Allocation |
| EitTable.Grabber.FindChannel | dvb-eit.c:76-88 | the channel-list loop finds the (sid, eid) entry |
| EitTable.Grabber.ScreenEvent | dvb-eit.c:133-146 | the date test of the Env's reading and the title check equal Screen and leave the channels unchanged |
| EitTable.Grabber.AdmitEvent | dvb-eit.c:113-185 | the validations and the decoding of one event equal Admit under the same reading |
| EitTable.Grabber.ParseEvent | dvb-eit.c:73-185 | one pass of the event loop, with the version test of the Env's reading, equals EventStep |
| EitTable.Grabber.EventAt | dvb-eit.c:72-185 | one pass of the loop either continues or ends the call as Events says under the same reading |
| EitTable.Grabber.Parse | dvb-eit.c:60-187 | parseEIT on the grabber equals ParseEit under the same reading |
| GenTables.WidthConcat | dvb/gentables.c:394-489 | the width of joined field lists is the sum of their widths |
| GenTables.CandidateInjective | dvb/gentables.c:406-429 | distinct suffix numbers give distinct idents |
| GenTables.Pigeonhole | dvb/gentables.c:406-429 | n distinct used candidates need at least n fields |
| GenTables.FirstFree | dvb/gentables.c:406-429 | the search ends at the smallest unused suffix, which exists |
| GenTables.FirstFreeUnique | dvb/gentables.c:406-429 | the smallest unused suffix is unique |
| GenTables.Declared | dvb/gentables.c:402-405 | a width of 0 means 8 bits |
| GenTables.FillOctet | dvb/gentables.c:430-439 | the room left in the current octet completes it |
| GenTables.SplitShape | dvb/gentables.c:440-488 | the pieces sum to the requested bits and are numbered downwards |
| GenTables.PiecesWidth | dvb/gentables.c:430-488 | the pieces sum to the declared width, and their count is the fcount |
| GenTables.PiecesNames | dvb/gentables.c:447-473 | one piece keeps the ident; two are `_hi`, `_lo`; more use descending `_N` |
| GenTables.PiecesFit | dvb/gentables.c:455-487 | only the first piece may start mid-octet; the middle pieces are whole octets |
| GenTables.PiecesStayInOctets | dvb/gentables.c:455-487 | no piece crosses an octet boundary |
| GenTables.ReversedPermutes | dvb/gentables.c:367-390 | reversing a run keeps its fields |
| GenTables.Closing | dvb/gentables.c:367-390 | a run ends at the first octet boundary |
| GenTables.Layout | dvb/gentables.c:364-388 | the struct body: whole octets as they are, each run up to an octet boundary forwards under `#if` and reversed under `#else`, and an unaligned tail under `#if` with no `#endif`; its properties are LayoutConcat, BigEndianOrder and LittleEndianPermutes |
| GenTables.Table | dvb/gentables.c:343-391 | typedef, struct head, Layout and the closing line; WriteTable is proved against it |
| GenTables.LayoutConcat | dvb/gentables.c:343-391 | the layout of octet-aligned parts is the layout of each part in turn |
| GenTables.BigEndianOrder | dvb/gentables.c:343-391 | compiled big-endian, the table declares the fields in their order |
| GenTables.LittleEndianPermutes | dvb/gentables.c:343-391 | compiled little-endian, an aligned table declares the same fields |
| GenTables.ClosedRun | dvb/gentables.c:367-390 | a run is declared forwards under `#if` big-endian and reversed under `#else` |
| GenTables.Place | dvb/gentables.c:430-488 | the piece loop appends exactly Pieces, and nbits grows by the declared width |
| GenTables.WriteReversed | dvb/gentables.c:377-383 | the reverse loop writes the run's fields backwards |
| GenTables.WriteBody | dvb/gentables.c:358-390 | the forward loop writes exactly Layout |
| GenTables.FieldSet.constructor | dvb/gentables.c:394-489 | an empty field set |
| GenTables.FieldSet.Taken | dvb/gentables.c:406-429 | the duplicate check finds a field with the ident |
| GenTables.FieldSet.FreeSuffix | dvb/gentables.c:406-429 | the suffix loop finds the smallest unused suffix |
| GenTables.FieldSet.FreeFields | dvb/gentables.c:334-340 | free_fields leaves no fields and no bits |
| GenTables.FieldSet.AddField | dvb/gentables.c:394-489 | the fields grow by the pieces of the deduplicated ident, and nbits by the declared width |
| GenTables.FieldSet.WriteTable | dvb/gentables.c:343-391 | a non-empty set is written as a table, then cleared, and the serial grows by one |

## Left out

- Device I/O: `select`, `read` timeouts, `ioctl`, `alarm` and signals (`dvb/demux.c`, `dvb-demux.c`). The byte source is the input sequence of `Demux.Reader`, and each read returns min(need, remaining) bytes.
- `dvb_crc32` and `_dvb_crc32` are not part of this model; the CRC check is the parameter `Demux.Crc`.
- iconv is a foreign library; it is the parameter `TextIconv.Converter`, which yields at most 1024 code units.
- TextIconv.Xmlifier.Xmlify: iconv_open cannot fail in the model. In the C code a failed iconv_open prints a message and calls `exit(1)` (`dvb_text_iconv.c:89-92`); ending the process is not modelled.
- `get_channelident`, `strftime`, `gmtime`, `localtime` and `time()` are parameters in `EitTable.Env`. `timegm` is modelled by days-from-civil arithmetic.
- `printf`, `perror`, `fprintf(stderr, …)` and all XMLTV output are left out. Descriptors that only print (long text, categories, teletext, ratings, unknown tags) are kept as effects that leave the event unchanged.
- The callbacks (`callbacks->event`, `callbacks->service`, `callbacks->network`) are modelled as the list of arguments they receive.
- Memory allocation failure (`calloc`, `realloc`, `malloc` returning NULL) is not modelled. Freeing events and sections is not modelled.
- parseMJD's floating-point constants are exact rationals in the model, with C's truncating cast (`Calendar.TruncDiv`). Rounding of the C doubles is not modelled.
- Calendar.ParseMjdRange: stated only for MJDs 15079 to 88127 (1900-03-01 to 2100-02-28), the range in which the routine yields real calendar dates.
- The 32-bit `once` word array of parseContentDescription is modelled as a set of codes, not packed bits.
- `dvb/eit.c` does not compile (code after the loop, undefined identifiers).
- The legacy duplicates `tv_grab_dvb.c`, `dvb-si.c`, `services.c` and the top-level `si_tables.h` are superseded by the `dvb/` versions. `xmltv.c`, `tvanytime.c`, `dvb2xrd.c` and `dvb2tva.c` are serialisers and drivers, and `dvb_info_tables.c` is constant data supplied to `Lookup.Find`.
- The `main` of `dvb_text_iconv.c` is a test driver.
- The gentables.c lexer and parser (`get_char`, `skip_whitespace`, `parse_*`) read a FILE and `exit()` on error. The model starts from the parsed field declarations. The cap of IDENT_SIZE is left out. An unaligned table end leaves its `#if` unclosed in the model as in the C code (`GenTables.Layout`); GenTables.LittleEndianPermutes is stated only for aligned tables.
- The network linkage descriptor (`dvb/nit.c:207-225`) only logs.
- EitTable.ParseEit: requires a section of at least 4 bytes, since `len -= 4` on a shorter one wraps the unsigned length.
- EitTable.TransportUriFits: assumes the time text has at most 20 characters, as `%Y-%m-%dT%H:%M:%SZ` has for four-digit years.
- EitDescriptors.PrivateDataSpecifier: the private data specifier is read and carried, but it decides nothing; no branch of parseDescription depends on it being 5. It is read with the corrected `Wire.Hilo4`, while the C code (`dvb/si_tables.h:1318`) uses HILO4 as written (`Wire.Hilo4AsWritten`), which gives 0x05000005 for the bytes 00 00 00 05.
- The 64-byte `date_strbuf` and the 256-byte `idbuf` are not modelled as overflowing.
- Events.Event.SubtitleAsWritten: when ntitle > nsubtitle, the C search reads past the end of the sub-title array, or through NULL when there are no sub-titles. The model only looks at the nsubtitle slots there and answers None when none of them matches.
- Wire.At: bytes read past the end of a section are 0; the C code reads whatever memory follows.

## Findings

| source | as written | input that shows it | evidently intended | confidence | as-written member | corrected member |
|---|---|---|---|---|---|---|
| dvb/si_tables.h:36 | HILO4 puts byte 4 in the top byte: b4<<24, b2<<16, b3<<8, b4 | the bytes 00 00 00 05 give 0x05000005, so no private data specifier ever equals 5 | b1<<24, b2<<16, b3<<8, b4 | not executed | Wire.Hilo4AsWrittenNeverFive | Wire.Hilo4 |
| dvb_text_iconv.c:24-29 | encoding_variable reads `*s[1]` and `*s[2]`, which index the pointer and not the field | the field 10 00 07 names a part number unrelated to the field (ISO-8859-0 when those bytes are 0) instead of ISO-8859-7 | `(*s)[1]` and `(*s)[2]` | not executed | TextIconv.VariableSelectorIgnoresField | TextIconv.Select |
| dvb/read.c:288-313 | section_add stores `sections[secnum]` without checking secnum against the slot count | table 0x42, version 0, section 1 whose last section is 0 writes past the single slot | ignore a section numbered above the last | not executed | Demux.SlotOverrunExample | Demux.SectionAdd |
| dvb/networks.c:72,109 | network_add_dvb makes `dvb:nid:%04x` while network_locate_dvb looks for `dvb:nit:%04x` | network id 1: the added network is never found | one ident format | not executed | Networks.AddDvbAsWrittenNotLocated, Nit.RepeatedTableAsWritten | Networks.AddDvbLocated, Nit.RepeatedTableCorrected |
| dvb/events.c:134 | event_subtitle bounds its search by ntitle | an event with no titles and an English sub-title returns NULL | bound by nsubtitle | not executed | Events.SubtitleBoundMisses | Events.Event.Subtitle |
| dvb-eit.c:486-504 | parseContentDescription stops two bytes early and reads the user byte as the category | the descriptor 54 02 10 00 emits no category | every pair's content nibbles | not executed | EitDescriptors.ContentPairsMissed | EitDescriptors.CategoriesCover |
| dvb-eit.c:79 | `c->ver <= e->version_number` discards a newer version | stored version 3, incoming 4: the update is ignored | discard when the incoming version is the stored one or older | not executed | EitTable.SeenAsWrittenInverted, EitTable.NewerVersionReadings | EitTable.SeenEndsCall, EitTable.NewerVersionReadings |
| dvb-eit.c:133 | `difftime(now, stop_time) > 14 days` tests the past, not the future | an event stopping 15 days ahead is kept | drop events stopping more than 14 days ahead | not executed | EitTable.BadDateAsWrittenFortnightDead, EitTable.AdmitDateAsWritten | EitTable.BadDateWindow, EitTable.AdmitDateCorrected |
