# indefero monotone SCM layer, key packets and project-creation form in Dafny

This project models three parts of the InDefero forge.

- **The monotone SCM layer** (`IDF_Scm_Monotone` and `IDF_Scm_Monotone_Stdio`) talks to a
  `mtn automate stdio` process, using version 2 of monotone's stdio protocol.
  - Framing. A command is sent as a length-prefixed frame: an optional options block
    `o<len>:<key><len>:<value>…e␠`, then `l<len>:<arg>…e\n`.
  - Replies. A reply is a sequence of chunks `<cmdnum>:<channel>:<length>:<payload>`. Payloads on
    `m` form the command's output. Payloads on `w`, `p`, `t` and `e` are out-of-band output. The
    `l` chunk carries the error code and ends the reply.
  - Interpreting answers. Most answers are in monotone's basic_io stanza format. The layer reads
    them to list branches and tags, collect the certs of a revision, find the last change of a
    file, list a folder of a manifest, look up one path, size up a revision and walk the change
    log.
- **Monotone public keys** (`IDF_Key`). An "mtn" key is a `[pubkey NAME] DATA [end]` packet. The
  key name is NAME. The key id is the SHA-1 of `NAME:DATA`.
- **The administrator's project-creation form** (`IDF_Form_Admin_ProjectCreate`). It validates
  the short name and the remote Subversion URL, and blanks the Subversion fields of a project that
  does not use Subversion.

## Modules

Each module is one `.dfy` file.

- `PhpRuntime` holds the PHP built-ins the code relies on:
  - `empty()`, `trim()`, `str_replace`, `implode`;
  - `preg_split("/\n/", …, PREG_SPLIT_NO_EMPTY)`;
  - the key union `+` of two lists, `array_unique`, decimal conversion.
- `StdioFraming` is the frame `_write` produces, together with a decoder. The two are proved to
  round-trip.
- `StdioChunks` covers reading a reply (`_readStdout`) and the greeting (`_checkVersion`). Both
  are functions over standard output and a position in it. An encoder for chunks states what a
  well-formed reply yields.
- `StdioTransport` is the class `Stdio`. Its fields are the ones the source updates: `cmdnum`,
  `lastcmd`, `oob`, the read position in standard output, and what was written to standard input.
  Its methods contain the source's loops and are proved against the functions above.
- `BasicIO` is the scanner of `_parseBasicIO`, both as functions and as a method with its nested
  loops. `BasicIOFormat` is monotone's printer for the same format. It proves that printed
  stanzas read back unchanged, and it pins down the scanner's two quirks.
- `Interpreters` turns parsed stanzas into certs, tags, the content mark, the count of added or
  patched files, and folder children. Each is a spec function, a reference definition it is
  proved equal to, and a method with the source's loops.
- `MonotoneQueries` answers every query as a function of a backend. The backend is the
  `stdio->exec` of the source: a function from a command to its output or its exception.
- `MonotoneChangeLog` is the work-list walk of `getChangeLog`.
- `MonotoneClient` is the class `Monotone`. It holds the cert cache and the branch and tag caches,
  and it logs the commands it sends. It is proved to answer exactly what `MonotoneQueries` and
  `MonotoneChangeLog` compute, with every cache entry equal to a fresh answer.
- `MonotoneKey` covers key packets.
- `ProjectCreateForm` covers the form.

## Model

| member | source | states |
|---|---|---|
| StdioFraming.KeyPairs | src/IDF/Scm/Monotone.php:215-224 | an option key with n values becomes n key/value pairs, in value order, each carrying that key |
| StdioFraming.Frame | src/IDF/Scm/Monotone.php:209-234 | the text `_write` sends for a command: the options block when there are options, then the argument list; `FrameRoundTrip` proves it decodes back |
| StdioFraming.ArgFieldsSnoc | src/IDF/Scm/Monotone.php:230-233 | adding one argument appends exactly its `<len>:<arg>` field to the argument fields |
| StdioFraming.OptionPairsSnoc | src/IDF/Scm/Monotone.php:215-225 | adding one option key appends exactly its key/value pairs |
| StdioFraming.PairFieldsAppend | src/IDF/Scm/Monotone.php:220-224 | the fields of consecutive pair lists are the concatenation of their fields |
| StdioFraming.DecodeFieldOf | src/IDF/Scm/Monotone.php:222-223 | a `<decimal length>:<string>` field reads back as that string, consuming exactly the field |
| StdioFraming.DecodeArgsOf | src/IDF/Scm/Monotone.php:229-234 | the argument fields followed by `e` read back as the same arguments, in order |
| StdioFraming.DecodePairsOf | src/IDF/Scm/Monotone.php:215-226 | the option fields followed by `e` read back as the same key/value pairs, in order |
| StdioFraming.OptionsBlockAt | src/IDF/Scm/Monotone.php:212-227 | an `o…e␠` block reads back as its pairs, and reading resumes right after the block |
| StdioFraming.ArgListAt | src/IDF/Scm/Monotone.php:229-234 | after the options, an `l…e\n` list makes the frame decode as those arguments with those options |
| StdioFraming.FrameRoundTrip | src/IDF/Scm/Monotone.php:209-234 | every frame `_write` builds decodes back to its arguments, in order, and to its options as one key/value pair per value, in order |
| StdioTransport.WriteOptionBlock | src/IDF/Scm/Monotone.php:212-227 | the options loop builds exactly the `o`, key/value fields, `e␠` block of the frame |
| StdioTransport.WriteKeyValues | src/IDF/Scm/Monotone.php:220-224 | the inner loop over one key's values builds that key's pair fields |
| StdioTransport.WriteArgList | src/IDF/Scm/Monotone.php:229-234 | the argument loop builds exactly `l`, the argument fields, `e\n` |
| StdioTransport.ArgListStep | src/IDF/Scm/Monotone.php:232 | one more `strlen:arg` extends the argument list by that argument's field |
| StdioTransport.OptionBlockStep | src/IDF/Scm/Monotone.php:215-224 | one more option key extends the block by that key's pair fields |
| StdioTransport.OptionFieldsStep | src/IDF/Scm/Monotone.php:222-223 | one more value extends the fields by one key field and one value field |
| StdioTransport.Stdio.constructor | src/IDF/Scm/Monotone.php:39-55 | a new connection over the given process output has read nothing, written nothing, counter 0, no last command and empty out-of-band lists |
| StdioTransport.Stdio.Start | src/IDF/Scm/Monotone.php:119-121 | after a greeting accepted by `_checkVersion` the counter is -1 and reading resumes after the greeting; a refused greeting raises its exception and changes nothing |
| StdioTransport.Stdio.Write | src/IDF/Scm/Monotone.php:209-243 | a successful write appends exactly the frame to the process input, makes it the last command and adds exactly one to the counter; a failed write raises "could not write '<frame>' to process" and changes nothing |
| StdioTransport.Stdio.ReadHeader | src/IDF/Scm/Monotone.php:281-307 | the character loop reads the header that `StdioChunks.ScanHeader` reads |
| StdioTransport.Stdio.ReadPayload | src/IDF/Scm/Monotone.php:318-324 | the fread loop yields exactly the next `len` characters, or nothing when fewer are left |
| StdioTransport.Stdio.ReadStdout | src/IDF/Scm/Monotone.php:266-352 | the result, the new out-of-band lists and the new read position are those of `StdioChunks.ReadReply`; counter, last command and input are unchanged |
| StdioTransport.Stdio.Exec | src/IDF/Scm/Monotone.php:363-367 | the command is numbered one past the previous one and its reply is read under that number and frame; a failed write leaves the connection as it was |
| StdioTransport.Stdio.LastOutOfBandOutput | src/IDF/Scm/Monotone.php:376-379 | returns the out-of-band lists of the last reply |
| StdioChunks.ScanHeader | src/IDF/Scm/Monotone.php:281-307 | a header that is read ends at least three characters on and within the output |
| StdioChunks.Demux | src/IDF/Scm/Monotone.php:276-341 | reading chunks only moves forward within the output |
| StdioChunks.ReadReply | src/IDF/Scm/Monotone.php:266-352 | reading a reply only moves forward within the output |
| StdioChunks.IsZeroCode | src/IDF/Scm/Monotone.php:343 | the `$errcode != 0` test: a code is zero when it is non-empty and all `0` digits; `ReadReplySuccess` and `ReadReplyFailure` state both outcomes |
| StdioChunks.ChunkAt | src/IDF/Scm/Monotone.php:283-324 | an encoded chunk's header reads as its command number, channel and length, and its payload follows the third colon |
| StdioChunks.DemuxStep | src/IDF/Scm/Monotone.php:326-336 | a `w`/`p`/`t`/`e` chunk appends its payload to its own list only; an `m` chunk appends its payload to the output only |
| StdioChunks.DemuxLast | src/IDF/Scm/Monotone.php:337-339 | an `l` chunk ends the reply with its payload as the code |
| StdioChunks.MainOutputCons | src/IDF/Scm/Monotone.php:334-335 | absorbing the first chunk and then the rest gives the same output as all `m` payloads in order |
| StdioChunks.GatheredCons | src/IDF/Scm/Monotone.php:328-332 | the same for each out-of-band channel |
| StdioChunks.DemuxOf | src/IDF/Scm/Monotone.php:276-341 | over a reply whose chunks all carry the expected number, the output is the in-order concatenation of exactly the `m` payloads, each out-of-band list gains exactly its channel's payloads, and the `l` payload is the code |
| StdioChunks.ReadReplySuccess | src/IDF/Scm/Monotone.php:266-352 | a reply ending with code 0 returns the concatenated `m` payloads; out-of-band lists start empty and hold exactly this reply's payloads |
| StdioChunks.ReadReplyFailure | src/IDF/Scm/Monotone.php:343-349 | a non-zero code raises "command '<lastcmd>' returned error code <code>: " followed by the `e` payloads joined by spaces; the `e` list keeps those payloads |
| StdioChunks.ReadReplyOutOfSync | src/IDF/Scm/Monotone.php:309-316 | a chunk for another command number raises "command numbers out of sync; expected …, got …" before its payload is read |
| StdioChunks.ReadReplyNoData | src/IDF/Scm/Monotone.php:285-292 | with nothing left to read the reply raises "No data on stdin, stderr is:" followed by the standard error text |
| StdioChunks.ReadLine | src/IDF/Scm/Monotone.php:181 | fgets returns at least one character: those up to and including the first newline from the position, or the rest of the output when it holds no newline |
| StdioChunks.VersionDigits | src/IDF/Scm/Monotone.php:190 | a match of `^format-version: (\d+)$` means the line is the prefix and non-empty digits, with an optional final newline |
| StdioChunks.CheckVersion | src/IDF/Scm/Monotone.php:177-200 | an accepted greeting consumes at least one character and stays within the output |
| StdioChunks.CheckVersionAccepts | src/IDF/Scm/Monotone.php:177-200 | the greeting "format-version: 2" plus a blank line is accepted, and reading resumes right after it |
| StdioChunks.GreetingDigits | src/IDF/Scm/Monotone.php:190 | a greeting line announcing version d matches, with d captured |
| StdioChunks.CheckVersionRefuses | src/IDF/Scm/Monotone.php:190-197 | any other announced version raises "stdio format version mismatch, expected '2', got '<d>'" |
| StdioChunks.MatchedLineHasPrefix | src/IDF/Scm/Monotone.php:190 | a first line that matches the version pattern starts with `format-version: ` |
| StdioChunks.CheckVersionRefusesOtherGreeting | src/IDF/Scm/Monotone.php:190-197 | a first line that does not start with `format-version: ` raises the mismatch message quoting no version |
| BasicIO.Substr | src/IDF/Scm/Monotone.php:534 | substr returns at most n characters, and exactly the n characters from the start when that many are left |
| BasicIO.ScanKey | src/IDF/Scm/Monotone.php:522-529 | the key loop: the key runs from the position to the end of the text or the first `"` or `[`, skipping spaces |
| BasicIO.ScanValue | src/IDF/Scm/Monotone.php:545-551 | one value: the characters up to the end of the text or the first quote not preceded by a backslash |
| BasicIO.Unescape | src/IDF/Scm/Monotone.php:563-567 | `str_replace` of `\\` by `\` and then `\"` by `"`; `BasicIOFormat.UnescapeEscape` proves it undoes escaping |
| BasicIO.Parsed | src/IDF/Scm/Monotone.php:509-578 | `_parseBasicIO` as a function; `BasicIO.ParsedShaped` and `BasicIOFormat.RoundTrip` state its properties |
| BasicIO.ScanKeyStops | src/IDF/Scm/Monotone.php:522-529 | a key ends at the end of the text or at the first `"` or `[`, and never holds a space, quote or bracket |
| BasicIO.ScanValueStops | src/IDF/Scm/Monotone.php:545-551 | a value ends at the end of the text or at the first quote whose preceding character is not a backslash |
| BasicIO.ScanValues | src/IDF/Scm/Monotone.php:540-559 | after the value loop no quote follows, every stored value sits at an index up to valCount, and valCount is at most one past the last stored value (one past it after a trailing space) |
| BasicIO.UnescapeFrom | src/IDF/Scm/Monotone.php:561-568 | the unescaping loop keeps every value and pads the list to valCount + 1 entries |
| BasicIO.ParseLine | src/IDF/Scm/Monotone.php:521-572 | reading a line always moves forward |
| BasicIO.ParseLineShape | src/IDF/Scm/Monotone.php:521-569 | a line has a hash exactly when its key ends at `[`; the hash is the next 40 characters and the values are then empty; otherwise the hash is null and there is at least one value |
| BasicIO.ParseStanza | src/IDF/Scm/Monotone.php:517-573 | reading a stanza never moves backwards |
| BasicIO.ParseStanzaShape | src/IDF/Scm/Monotone.php:517-573 | a stanza ends at the end of the text or at a blank line's newline, keeps the lines before it and adds only well-shaped lines |
| BasicIO.ParseStanzasShape | src/IDF/Scm/Monotone.php:514-576 | the stanza loop keeps the stanzas before it and adds only stanzas of well-shaped lines |
| BasicIO.ParsedShaped | src/IDF/Scm/Monotone.php:509-578 | every line `_parseBasicIO` returns has a key without spaces, quotes or brackets, and either a hash of at most 40 characters and no values, or no hash and at least one value |
| BasicIO.ParseBasicIO | src/IDF/Scm/Monotone.php:509-578 | the nested cursor loops return exactly the stanzas of `BasicIO.Parsed` |
| BasicIO.ReadLine | src/IDF/Scm/Monotone.php:521-572 | one iteration of the line loop reads exactly the line and position of `ParseLine` |
| BasicIO.ReadKey | src/IDF/Scm/Monotone.php:522-529 | the key loop computes exactly `ScanKey` |
| BasicIO.ReadValues | src/IDF/Scm/Monotone.php:540-559 | the value loop computes exactly `ScanValues` |
| BasicIO.UnescapeValues | src/IDF/Scm/Monotone.php:561-568 | the str_replace loop over indices 0 to valCount computes exactly `UnescapeFrom` |
| BasicIO.ReadValue | src/IDF/Scm/Monotone.php:545-551 | the character loop of one value computes exactly `ScanValue` |
| BasicIOFormat.EscapeAppend | src/IDF/Scm/Monotone.php:563-567 | escaping distributes over concatenation |
| BasicIOFormat.EscapedQuotes | src/IDF/Scm/Monotone.php:547-548 | inside an escaped value no quote can close the value |
| BasicIOFormat.UnescapeBackslashes | src/IDF/Scm/Monotone.php:563-567 | the first replacement, `\\` to `\`, undoes the escaping of backslashes |
| BasicIOFormat.UnescapeQuotes | src/IDF/Scm/Monotone.php:563-567 | the second replacement, `\"` to `"`, undoes the escaping of quotes |
| BasicIOFormat.UnescapeEscape | src/IDF/Scm/Monotone.php:563-567 | the two replacements in sequence give back any escaped value |
| BasicIOFormat.UnescapeAllEscapeAll | src/IDF/Scm/Monotone.php:561-568 | unescaping every escaped value of a list gives the list back |
| BasicIOFormat.ScanKeyOf | src/IDF/Scm/Monotone.php:522-529 | a printed key followed by a space reads back as that key, stopping at its delimiter |
| BasicIOFormat.ScanValueOf | src/IDF/Scm/Monotone.php:541-552 | a printed value not ending in a backslash reads back up to and past its closing quote |
| BasicIOFormat.ParseHashLineOf | src/IDF/Scm/Monotone.php:531-537 | a printed `key [hash]` line reads back as that key and 40-character hash |
| BasicIOFormat.ParseValuesLineOf | src/IDF/Scm/Monotone.php:538-569 | a printed line of quoted values reads back as that key and those values |
| BasicIOFormat.ParseStanzaAt | src/IDF/Scm/Monotone.php:517-573 | a printed stanza followed by a blank line reads back as that stanza |
| BasicIOFormat.ParseStanzasAt | src/IDF/Scm/Monotone.php:514-576 | printed stanzas read back as those stanzas |
| BasicIOFormat.RoundTrip | src/IDF/Scm/Monotone.php:509-578 | printing stanzas whose values do not end in a backslash and parsing the text gives the same stanzas |
| BasicIOFormat.BackslashEndedValueRunsOn | src/IDF/Scm/Monotone.php:547-548 | the printed line `k "a\\"` for the value `a\` is read as the value `a"` followed by a newline: the closing quote is missed |
| BasicIOFormat.SequentialUnescape | src/IDF/Scm/Monotone.php:563-567 | the replacements apply one after the other: `\\\"` unescapes to a single `"` |
| Interpreters.LabelledFromAt | src/IDF/Scm/Monotone.php:599-619 | the first target line of a stanza is paired with the first value of the last label line before it |
| Interpreters.LabelledIsFirstTarget | src/IDF/Scm/Monotone.php:599-619 | a stanza yields a labelled line exactly when it has a target line, and then it is the first such line with the last label before it |
| Interpreters.AddCertByName | src/IDF/Scm/Monotone.php:609-617 | recording one cert appends its value under its name only |
| Interpreters.CertsFromByName | src/IDF/Scm/Monotone.php:597-620 | the stanza loop appends, under every name, exactly the values of the stanzas with that cert name |
| Interpreters.CertsByName | src/IDF/Scm/Monotone.php:593-621 | `_getCerts` maps every cert name to exactly the values named so, in arrival order, and has no other names |
| Interpreters.Certs | src/IDF/Scm/Monotone.php:593-621 | the cert map `_getCerts` builds from the `certs` reply; `CertsByName` characterises it |
| Interpreters.CollectCerts | src/IDF/Scm/Monotone.php:596-620 | the loops of `_getCerts` compute exactly `Certs` |
| Interpreters.TagsFromByRevision | src/IDF/Scm/Monotone.php:704-721 | the stanza loop adds exactly the tagged revisions, each with its last tag name |
| Interpreters.TagsByRevision | src/IDF/Scm/Monotone.php:700-724 | `getTags` maps exactly the revisions some stanza tags, each to the name of the last such stanza |
| Interpreters.Tags | src/IDF/Scm/Monotone.php:700-724 | the tag map `getTags` builds from the `tags` reply; `TagsByRevision` characterises it |
| Interpreters.CollectTags | src/IDF/Scm/Monotone.php:702-721 | the loops of `getTags` compute exactly `Tags` |
| Interpreters.FindLineAppend | src/IDF/Scm/Monotone.php:669-675 | the first keyed line of two consecutive parts is the first part's when it has one, else the second's |
| Interpreters.FirstKeyedIsFirstLine | src/IDF/Scm/Monotone.php:667-676 | searching stanza by stanza finds the first keyed line of all lines together |
| Interpreters.FindLineIsFirst | src/IDF/Scm/Monotone.php:669-675 | a keyed line is found exactly when one exists, and it is the first one |
| Interpreters.ContentMarkIsFirst | src/IDF/Scm/Monotone.php:663-677 | the content mark is the hash of the first `content_mark` line of the reply, and null when there is none |
| Interpreters.ContentMark | src/IDF/Scm/Monotone.php:663-677 | the content mark `_getLastChangeFor` reads from `get_content_changed`; `ContentMarkIsFirst` characterises it |
| Interpreters.FindContentMark | src/IDF/Scm/Monotone.php:667-677 | the loops that return from inside both compute exactly `ContentMark` |
| Interpreters.NewAndPatchedAppend | src/IDF/Scm/Monotone.php:1057-1061 | the count of added or patched files adds up over consecutive parts and never exceeds the number of stanzas |
| Interpreters.NewAndPatched | src/IDF/Scm/Monotone.php:1057-1061 | the count of `patch` and `add_file` stanzas; `MonotoneQueries.NewAndPatchedIsCount` proves it is the number of such stanzas |
| Interpreters.CountNewAndPatched | src/IDF/Scm/Monotone.php:1054-1061 | the counting loop computes exactly `NewAndPatched` |
| Interpreters.ChildNameOf | src/IDF/Scm/Monotone.php:754-762 | a path is listed exactly when it is the folder prefix followed by one non-empty segment without `/`, and the listed name is that segment |
| Interpreters.ChildName | src/IDF/Scm/Monotone.php:754-762 | the folder match of `getTree`; `ChildNameOf` characterises it |
| MonotoneQueries.ValidRevisionIsSingleLine | src/IDF/Scm/Monotone.php:882-886 | a selector is a valid revision exactly when `select` lists one revision |
| MonotoneQueries.Select | src/IDF/Scm/Monotone.php:497-501 | `_resolveSelector`: the non-empty lines of `select`; `PhpRuntime.SplitJoinLines` proves they are the listed revisions |
| MonotoneQueries.IsValidRevision | src/IDF/Scm/Monotone.php:882-886 | `isValidRevision`; `ValidRevisionIsSingleLine` characterises it |
| MonotoneQueries.DiffOfFirstRevisions | src/IDF/Scm/Monotone.php:988-1005 | with both sides resolved and a non-empty first source, the diff is `content_diff` of the first source and first target revisions |
| MonotoneQueries.GetDiff | src/IDF/Scm/Monotone.php:979-1006 | `_getDiff` as a function; `GetDiffOutcomes` states every outcome |
| MonotoneQueries.GetDiffOutcomes | src/IDF/Scm/Monotone.php:979-1006 | errors resolving the target and then the source propagate; no diff when either side resolves to nothing or the first source is empty; otherwise `content_diff` of the first source and first target |
| MonotoneQueries.DiffRequestOrder | src/IDF/Scm/Monotone.php:1002-1004 | the `content_diff` frame carries the source revision before the target revision |
| MonotoneQueries.DiffOptionPairs | src/IDF/Scm/Monotone.php:1004 | the two `r` options become two `r` pairs, source first |
| MonotoneQueries.DiffDefaultsToParent | src/IDF/Scm/Monotone.php:981-984 | without a source the diff is the one against `p:<target>` |
| MonotoneQueries.AuthAccessUrlAddsUser | src/IDF/Scm/Monotone.php:862-866 | an ssh:// URL gains `<user>@` after the scheme, and removing it gives the URL back; other URLs are unchanged |
| MonotoneQueries.AuthAccessUrl | src/IDF/Scm/Monotone.php:865 | the rewriting of `getAuthAccessUrl`; `AuthAccessUrlAddsUser` states that it is reversible |
| MonotoneQueries.BranchMapFromOf | src/IDF/Scm/Monotone.php:456-459 | the branch loop keeps earlier keys, adds `h:<b>` for every listed branch b, and adds nothing else |
| MonotoneQueries.BranchesAreSelectors | src/IDF/Scm/Monotone.php:449-462 | `getBranches` maps `h:<b>` to b for every listed branch, and every key is such a selector |
| MonotoneQueries.BranchesOf | src/IDF/Scm/Monotone.php:442-463 | `getBranches` as a function; `BranchesAreSelectors` characterises it |
| MonotoneQueries.CertValuesFromOf | src/IDF/Scm/Monotone.php:638-645 | the merge loop collects exactly the values some revision carries in the cert |
| MonotoneQueries.UniqueCertValuesAreCarried | src/IDF/Scm/Monotone.php:635-647 | `_getUniqueCertValuesFor` lists each value some revision carries in the named cert, each exactly once, and nothing else |
| MonotoneQueries.UniqueCertValuesOf | src/IDF/Scm/Monotone.php:635-647 | `_getUniqueCertValuesFor` as a function; `UniqueCertValuesAreCarried` characterises it |
| MonotoneQueries.InCertsOf | src/IDF/Scm/Monotone.php:683-688 | `inBranches` and `inTags`: nothing for a selector that resolves to nothing, else the unique cert values of the revisions |
| MonotoneQueries.CertsOf | src/IDF/Scm/Monotone.php:587-625 | `_getCerts` without its cache: `Interpreters.Certs` of the `certs` reply |
| MonotoneQueries.TagsOf | src/IDF/Scm/Monotone.php:693-725 | `getTags` without its cache: `Interpreters.Tags` of the `tags` reply |
| MonotoneQueries.LastChangeOf | src/IDF/Scm/Monotone.php:657-678 | `_getLastChangeFor`: `Interpreters.ContentMark` of the `get_content_changed` reply |
| MonotoneQueries.TreeFromInFolder | src/IDF/Scm/Monotone.php:756-799 | the manifest loop adds only entries that are one segment right below the folder |
| MonotoneQueries.TreeEntriesInFolder | src/IDF/Scm/Monotone.php:740-801 | every entry `getTree` lists has as full path the folder prefix followed by its name, a non-empty segment without `/`; directories are listed with size 0 and no hash |
| MonotoneQueries.TreeFromChildren | src/IDF/Scm/Monotone.php:756-799 | the manifest loop keeps the entries gathered before it and then lists every child stanza of the manifest once, in manifest order, as `DescribeOf` describes it under its file name |
| MonotoneQueries.TreeListsChildren | src/IDF/Scm/Monotone.php:740-801 | `getTree` lists nothing when the selector resolves to nothing; otherwise exactly the child stanzas of the first revision's manifest, once each and in order, each described under its file name |
| MonotoneQueries.TreeOf | src/IDF/Scm/Monotone.php:740-801 | `getTree` as a function; `TreeEntriesInFolder` and `TreeListsChildren` characterise it |
| MonotoneQueries.PathInfoIsFirstExactMatch | src/IDF/Scm/Monotone.php:908-954 | `getPathInfo` answers false exactly when no manifest stanza has exactly that path; otherwise it describes the first stanza that does, with that full path |
| MonotoneQueries.PathInfoOf | src/IDF/Scm/Monotone.php:891-955 | `getPathInfo` as a function; `PathInfoIsFirstExactMatch` characterises it |
| MonotoneQueries.SmallRevisionIsNotLarge | src/IDF/Scm/Monotone.php:1054-1063 | a revision of at most 100 stanzas is never large |
| MonotoneQueries.NewAndPatchedIsCount | src/IDF/Scm/Monotone.php:1057-1061 | the counting loop's count equals the number of stanza indices whose first key is `patch` or `add_file` |
| MonotoneQueries.IsCommitLargeCounts | src/IDF/Scm/Monotone.php:1039-1064 | `isCommitLarge` propagates errors, is false when the selector resolves to nothing, and otherwise is true exactly when more than 100 stanzas of the first revision add or patch a file |
| MonotoneQueries.IsCommitLargeOf | src/IDF/Scm/Monotone.php:1039-1064 | `isCommitLarge` as a function; `IsCommitLargeCounts` characterises it |
| MonotoneQueries.AnonymousAccessUrlOf | src/IDF/Scm/Monotone.php:826-857 | `getAnonymousAccessUrl` with the filled-in URL template as a parameter; `MonotoneClient.Monotone.AnonymousAccessUrl` computes it |
| MonotoneChangeLog.LineBreakFrom | src/IDF/Scm/Monotone.php:1106 | the first `\n` or `\r` at or after a position, with no line break before it |
| MonotoneChangeLog.TitleIsFirstLine | src/IDF/Scm/Monotone.php:1105-1108 | the title holds no line break and is the whole log when there is none; otherwise the log is title, break, rest |
| MonotoneChangeLog.SplitTitle | src/IDF/Scm/Monotone.php:1106 | `preg_split("/[\n\r]/", …, 2)`; `TitleIsFirstLine` characterises it |
| MonotoneChangeLog.LogEntryOf | src/IDF/Scm/Monotone.php:1097-1110 | the entry of a logged revision: authors joined by ", ", the first line of the joined change logs as title, the trimmed rest as message |
| MonotoneChangeLog.RunStepOf | src/IDF/Scm/Monotone.php:1075-1117 | while the horizon is not empty and n > 0, the walk is one step followed by the rest of the walk |
| MonotoneChangeLog.LoggedAt | src/IDF/Scm/Monotone.php:1093-1112 | each entry of a soundly built log is logged |
| MonotoneChangeLog.AllLoggedEach | src/IDF/Scm/Monotone.php:1093-1112 | every entry of a soundly built log is built from its revision's certs and shares a branch with the initial branches |
| MonotoneChangeLog.AllLoggedNone | src/IDF/Scm/Monotone.php:1087-1093 | nothing is logged before the initial branches are set |
| MonotoneChangeLog.VisitKeeps | src/IDF/Scm/Monotone.php:1083-1116 | a step visits the first revision of the horizon, keeps the earlier entries and adds at most one, counting it off n; it keeps the log sound, keeps the initial branches once set, and keeps them those of the first visited revision that has branches |
| MonotoneChangeLog.AllLoggedAppend | src/IDF/Scm/Monotone.php:1112 | appending a logged entry keeps the log sound |
| MonotoneChangeLog.FirstBranchesSnoc | src/IDF/Scm/Monotone.php:1087-1091 | visiting one more revision changes the first branch set only while no earlier revision had branches, and then to that revision's branches |
| MonotoneChangeLog.StepKeeps | src/IDF/Scm/Monotone.php:1077-1116 | one iteration of the loop keeps the log invariant |
| MonotoneChangeLog.LoopKeeps | src/IDF/Scm/Monotone.php:1075-1117 | an invariant of the loop body holds when the loop ends |
| MonotoneChangeLog.RunKeeps | src/IDF/Scm/Monotone.php:1075-1117 | the log invariant holds when the walk ends |
| MonotoneChangeLog.ChangeLogOf | src/IDF/Scm/Monotone.php:1069-1120 | `getChangeLog` as a function, bounded by fuel; `ChangeLogBoundedAndOnBranches` states its properties |
| MonotoneChangeLog.ChangeLogBoundedAndOnBranches | src/IDF/Scm/Monotone.php:1069-1120 | `getChangeLog` returns at most n entries (none when n ≤ 0); each is built from its revision's certs, and each revision shares a branch with the initial branch set; that set is the branch certs of the first visited revision that has any, in the order the walk visits revisions |
| MonotoneChangeLog.ToposortOmitsFirst | src/IDF/Scm/Monotone.php:1079 | `array("toposort") + $horizont` drops the horizon's first revision from the command |
| MonotoneChangeLog.ParentsBeyondHorizon | src/IDF/Scm/Monotone.php:1116 | `$horizont += parents` keeps the horizon and adds only the parents at positions from the horizon's length on |
| MonotoneClient.CollectBranches | src/IDF/Scm/Monotone.php:455-459 | the loop of `getBranches` computes exactly the branch map |
| MonotoneClient.Monotone.constructor | src/IDF/Scm/Monotone.php:397-401 | a new client has empty caches and has sent nothing |
| MonotoneClient.Monotone.Exec | src/IDF/Scm/Monotone.php:363-367 | the answer is the backend's answer, and the command is logged as sent |
| MonotoneClient.Monotone.ResolveSelector | src/IDF/Scm/Monotone.php:497-501 | the revisions are the non-empty lines of `select`'s output, and exactly one `select` is sent |
| MonotoneClient.Monotone.GetBranches | src/IDF/Scm/Monotone.php:442-463 | answers what a fresh query gives; a cached map is returned without sending anything, otherwise the answer is cached |
| MonotoneClient.Monotone.GetCerts | src/IDF/Scm/Monotone.php:587-625 | answers what a fresh `certs` query gives; a second call for the same revision returns the cached map without sending `certs` again |
| MonotoneClient.Monotone.UniqueCertValuesFor | src/IDF/Scm/Monotone.php:635-647 | answers `UniqueCertValuesOf`; caches only grow and the send log only grows |
| MonotoneClient.Monotone.InBranches | src/IDF/Scm/Monotone.php:683-688 | answers the unique branch certs of the selected revisions, or nothing when none is selected |
| MonotoneClient.Monotone.InTags | src/IDF/Scm/Monotone.php:730-735 | answers the unique tag certs of the selected revisions, or nothing when none is selected |
| MonotoneClient.Monotone.GetTags | src/IDF/Scm/Monotone.php:693-725 | answers what a fresh query gives; a cached map is returned without sending anything, otherwise the answer is cached |
| MonotoneClient.Monotone.LastChangeFor | src/IDF/Scm/Monotone.php:657-678 | answers the content mark of `get_content_changed`, sending exactly that command |
| MonotoneClient.Monotone.Describe | src/IDF/Scm/Monotone.php:765-796 | one entry of a tree or path lookup is exactly `DescribeOf` |
| MonotoneClient.Monotone.GetTree | src/IDF/Scm/Monotone.php:740-801 | answers exactly `TreeOf` |
| MonotoneClient.Monotone.GetPathInfo | src/IDF/Scm/Monotone.php:891-955 | answers exactly `PathInfoOf`; without a commit the main branch's head is used |
| MonotoneClient.Monotone.IsCommitLarge | src/IDF/Scm/Monotone.php:1039-1064 | answers exactly `IsCommitLargeOf` |
| MonotoneClient.Monotone.AnonymousAccessUrl | src/IDF/Scm/Monotone.php:826-857 | answers exactly `AnonymousAccessUrlOf` |
| MonotoneClient.Monotone.AuthAccessUrlFor | src/IDF/Scm/Monotone.php:862-866 | fails exactly when the anonymous URL fails, and otherwise is that URL with the user inserted |
| MonotoneClient.Monotone.OrderHorizon | src/IDF/Scm/Monotone.php:1077-1081 | a horizon of several revisions is re-read from `toposort`, whose command is the key union; a single revision sends nothing |
| MonotoneClient.Monotone.VisitFirst | src/IDF/Scm/Monotone.php:1083-1116 | the rest of one iteration computes exactly `Visit` |
| MonotoneClient.Monotone.ChangeLogStep | src/IDF/Scm/Monotone.php:1077-1116 | one iteration leaves a state from which the remaining walk gives the same result as the whole walk |
| MonotoneClient.Monotone.GetChangeLog | src/IDF/Scm/Monotone.php:1069-1120 | answers exactly `ChangeLogOf` |
| MonotoneKey.SpaceEnd | src/IDF/Key.php:90 | the end of the whitespace run starting at a position |
| MonotoneKey.WordEnd | src/IDF/Key.php:90 | the end of the non-whitespace run starting at a position |
| MonotoneKey.MatchBodySound | src/IDF/Key.php:90 | a matched body is some well-formed body's text |
| MonotoneKey.MatchPacketSound | src/IDF/Key.php:90 | a matched packet is well-formed and its text is the content |
| MonotoneKey.MatchBodyComplete | src/IDF/Key.php:90 | the text of a well-formed body matches and gives that body back |
| MonotoneKey.MatchPacketComplete | src/IDF/Key.php:90 | the text of a well-formed packet matches and gives that packet back |
| MonotoneKey.MatchPacket | src/IDF/Key.php:90 | the match of `#^\[pubkey ([^\]]+)\]\s*(\S+)\s*\[end\]$#`; `MatchPacketSound` and `MatchPacketComplete` characterise it |
| MonotoneKey.ParseKeyDataCases | src/IDF/Key.php:85-95 | a key of another type raises "key is not a monotone key type"; an "mtn" key whose content does not match raises "invalid key data detected"; otherwise the result is the packet's name and data |
| MonotoneKey.ParseKeyData | src/IDF/Key.php:85-95 | `parseMonotoneKeyData` as a function; `ParseKeyDataCases` states every outcome |
| MonotoneKey.ParsedKeyShape | src/IDF/Key.php:90-94 | a parsed name is non-empty without `]`, and parsed data is non-empty without whitespace |
| MonotoneKey.ParseKeyDataOfPacket | src/IDF/Key.php:85-95 | an "mtn" key holding a well-formed packet parses as its name and data |
| MonotoneKey.KeyNameIsParsedName | src/IDF/Key.php:103-107 | `getMonotoneKeyName` is exactly the parsed name, and fails as the parse does |
| MonotoneKey.KeyName | src/IDF/Key.php:103-107 | `getMonotoneKeyName` |
| MonotoneKey.KeyIdOfPacket | src/IDF/Key.php:119-123 | the key id of a well-formed packet is the hash of name ":" data |
| MonotoneKey.KeyId | src/IDF/Key.php:119-123 | `getMonotoneKeyId` with the SHA-1 as a parameter |
| MonotoneKey.KeyIdIgnoresLayout | src/IDF/Key.php:119-123 | two packets with the same name and data have the same id, whatever the whitespace around the data |
| ProjectCreateForm.AsciiLower | src/IDF/Form/Admin/ProjectCreate.php:175 | lower-casing keeps the length, and maps each character to its lower-case form |
| ProjectCreateForm.AsciiLowerIdempotent | src/IDF/Form/Admin/ProjectCreate.php:175 | lower-casing a lower-cased name changes nothing |
| ProjectCreateForm.CleanShortname | src/IDF/Form/Admin/ProjectCreate.php:173-191 | `clean_shortname` as a function; `CleanShortnameAccepts` and `CleanShortnameRefusals` characterise it |
| ProjectCreateForm.CleanShortnameAccepts | src/IDF/Form/Admin/ProjectCreate.php:173-191 | a short name is accepted exactly when its lower-cased form is made of `-`, ASCII letters and digits, does not start or end with `-` and is not taken; the result is then that lower-cased form |
| ProjectCreateForm.CleanShortnameRefusals | src/IDF/Form/Admin/ProjectCreate.php:175-189 | each refusal carries the message of the first failing check: illegal characters, then the leading dash, then the trailing dash, then a taken name |
| ProjectCreateForm.CleanShortnameIgnoresCase | src/IDF/Form/Admin/ProjectCreate.php:175 | names that differ only in letter case are cleaned alike |
| ProjectCreateForm.CleanShortnameStable | src/IDF/Form/Admin/ProjectCreate.php:173-191 | a cleaned short name cleans to itself while it is not taken |
| ProjectCreateForm.SvnRemoteUrlAccepts | src/IDF/Form/Admin/ProjectCreate.php:160-171 | an absent, empty, "0" or blank URL cleans to ""; a URL whose trimmed form starts with http:// or https:// cleans to that trimmed form; any other URL is refused with the remote-only message |
| ProjectCreateForm.CleanSvnRemoteUrl | src/IDF/Form/Admin/ProjectCreate.php:160-171 | `clean_svn_remote_url` as a function; `SvnRemoteUrlAccepts` characterises it |
| ProjectCreateForm.CleanSvnRemoteUrlStable | src/IDF/Form/Admin/ProjectCreate.php:163-170 | a cleaned URL is trimmed and cleans to itself |
| ProjectCreateForm.BlankedFields | src/IDF/Form/Admin/ProjectCreate.php:196-199 | blanking sets each given key to "" and leaves every other entry as it was |
| ProjectCreateForm.ClearedFields | src/IDF/Form/Admin/ProjectCreate.php:193-224 | `clean` leaves a Subversion project's data unchanged; otherwise it sets exactly the three svn fields to "" and keeps every other field |
| ProjectCreateForm.Cleared | src/IDF/Form/Admin/ProjectCreate.php:193-224 | `clean` as a function of the form data; `ClearedFields` characterises it |
| ProjectCreateForm.ClearedIdempotent | src/IDF/Form/Admin/ProjectCreate.php:193-224 | cleaning twice is cleaning once |
| ProjectCreateForm.ProjectCreate.constructor | src/IDF/Form/Admin/ProjectCreate.php:32 | the form starts from the given cleaned data |
| ProjectCreateForm.ProjectCreate.CleanShortnameField | src/IDF/Form/Admin/ProjectCreate.php:173-191 | cleans the form's short name field and changes nothing |
| ProjectCreateForm.ProjectCreate.CleanSvnRemoteUrlField | src/IDF/Form/Admin/ProjectCreate.php:160-171 | writes the normalised URL back into the form data before checking, then cleans it |
| ProjectCreateForm.ProjectCreate.Clean | src/IDF/Form/Admin/ProjectCreate.php:193-224 | the key loop leaves the form data equal to `Cleared` of the old data, and returns it |
| PhpRuntime.SplitJoinLines | src/IDF/Scm/Monotone.php:500 | splitting newline-joined non-empty lines without newlines gives the lines back |
| PhpRuntime.ListUnion | src/IDF/Scm/Monotone.php:1116 | the key union keeps the left list and takes the right list's elements at positions from the left list's length on |
| PhpRuntime.Unique | src/IDF/Scm/Monotone.php:646 | array_unique keeps exactly the elements of the list, each once, in the order of their first occurrences |
| PhpRuntime.Trim | src/IDF/Form/Admin/ProjectCreate.php:163 | trim returns the part of the string between its leading and trailing runs of whitespace and NUL characters, and that part neither starts nor ends with one |
| PhpRuntime.TrimTrimmed | src/IDF/Form/Admin/ProjectCreate.php:163 | trimming a trimmed string changes nothing |

## Left out

- Process control. `start`'s command building, `proc_open`, `stop`, `__destruct`, `_waitForReadyRead` and `_readStderr` are I/O. The process's standard output and standard error are given as strings. The write succeeds exactly when the process accepts input.
- Chunk headers are read in the character loop of the source. A field holding a character it cannot hold is reported as a malformed header. An example is a letter in a number field, where PHP's type juggling varies by version.
- A payload shorter than announced makes the source spin in its fread loop forever. The model reports a truncated payload instead.
- `StdioChunks.IsZeroCode`: an error code counts as zero when it is all `0` digits. Spellings such as `" 0"`, which PHP's loose comparison would also take as zero, count as non-zero.
- `_parseBasicIO` is total in the model. A read past the end of the text sees the empty string, as in PHP, so malformed text is scanned the way the source scans it.
- BasicIOFormat.RoundTrip: holds only for values that do not end in a backslash. The source's closing-quote test looks at one preceding character, so such a value runs on past its closing quote (`BasicIOFormat.BackslashEndedValueRunsOn`). The scanner is kept as written.
- The stdio connection is modelled as a pure backend function. The repository does not change while a page is served. The static `$certCache` shared by all instances is a field of one client.
- MonotoneChangeLog.ChangeLogOf: the loop is bounded by a fuel parameter. The source loops until the horizon is empty or n entries are logged. Running out of fuel is reported as an error, so an answer found within the bound is the source's answer.
- Dates. `gmdate`/`strtotime` in getTree, getPathInfo, getCommit and getChangeLog are not modelled, and entries carry no date.
- `smartEncode` (the encoded full path) is not modelled.
- `getMainBranch` reads the project configuration and is not modelled. Its result is a parameter of getPathInfo, getAnonymousAccessUrl and isCommitLarge.
- The `sprintf` of the configured remote URL template is not modelled. The filled-in URL is a parameter.
- MonotoneQueries.IsCommitLargeOf: the source's default selector `"h:" + getMainBranch()` uses numeric `+`. The model takes the selector as the `fallback` parameter instead.
- getTree and getPathInfo interpolate the folder and file into a regular expression. The model treats them as a literal prefix and an exact path. `MonotoneQueries.Basename` takes the text after the last `/` in place of `pathinfo()`.
- `array_unique` keeps the keys of the first occurrences, leaving gaps. The model returns the distinct values as a list in the same order.
- Strings are byte strings: one character is one byte, and `strlen` is the length. No multibyte encoding is modelled.
- `_readStderr` is I/O. The standard error text is a parameter standing for what it returns, including its `"<empty>"` for no output.
- The header loop accumulates numbers in PHP integers, which turn into floats past `PHP_INT_MAX`. The model uses unbounded integers.
- MonotoneQueries.AuthAccessUrl: the user name is inserted literally. `preg_replace` would read `$n` and `\n` in it as back-references.
- A cert list that is absent from the map is read as empty, as `count(null)` does before PHP 7.2. Later versions warn or throw there.
- PHP `null` where a string is expected (a missing cert name, a missing tag name, the first value of a hash line) is modelled as "", which is what PHP turns it into when it is used as a key or concatenated.
- getCommit, findAuthor (an ORM user lookup), getRepositorySize (shells out to `du`), isAvailable (a float comparison) and the `cmd_only` branch of getFile are not part of this model. getFile itself is modelled inside `MonotoneQueries.ContentOf`.
- The SHA-1 of getMonotoneKeyId is a function parameter.
- PCRE's `\s` is taken as space, tab, line feed, vertical tab, form feed and carriage return.
- Key.php's ORM schema, `showCompact`, its signals and `getAvailableKeyTypes` are not modelled.
- The form's `initFields`, `save`, `clean_template`, `clean_owners`/`clean_members` and the `Pluf_Signal::send` call are not modelled. Whether a short name is taken is given as the set of existing short names, in place of the database lookup.
- ProjectCreateForm.AsciiLower: `mb_strtolower` is modelled over ASCII letters only. Other characters are kept, so a non-ASCII letter whose lower case is ASCII (the Kelvin sign) is refused, where the source would accept it.
- The form framework storing the value a `clean_` method returns into the cleaned data is not modelled. `ProjectCreateForm.ProjectCreate.CleanShortnameField` returns the value.
