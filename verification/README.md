# statistics-server: the decision logic, in Dafny

A model of the sequential decision logic of the statistics-server, a
TypeScript/Express service that reports host statistics, runs speed tests,
captures network packets and guards all of it with API keys. Network, clock,
file system and randomness are inputs (oracle values and event traces). What
is modelled is what the code decides from them:

- the speedtest server catalogue: the tolerant `<server …>` tag scanner of
  `parseServerXML` and the nearest-ten ranking of `sortServersByDistance`
  (`Servers`, servers.dfy);
- the speedtest orchestration: the probe URL and result, `findBestServer`, the
  three-sample ping average, the 10 s / 5 s / 0 retry ladder and the assembled
  result (`Speedtest`, speedtest.dfy);
- the throughput meter of `measureDownload` / `measureUpload`. It is modelled as
  one sequential state machine driven by the events the event loop observes.
  This covers the pool of at most four transfers, the `shouldContinue` byte gate,
  the zero-bytes / zero-time error, the Mbps formula over exact reals, the upload
  payload fill (an array loop with invariants), the download object URL and the
  ping's nanosecond-to-millisecond truncation (`Network`, network.dfy);
- API keys: `makeid`, `createApiKey`, `deleteApiKey`, `loadKeys` (`Keys`,
  keys.dfy); the `authenticate` middleware (`Auth`, auth.dfy); the key command
  line (`Cli`, cli.dfy);
- the request handlers of index.ts that decide something: key create, list and
  delete behind their guard; the sniffer start/stop lifecycle; the two bounded
  packet logs (`Routes`, routes.dfy);
- the `NetworkSniffer` callback registry and packet record (`Sniffer`,
  sniffer.dfy);
- the terminal report of `__tests__/sysinfo.ts`: box framing, word wrap, the
  side-by-side merge and the row layout (`SysInfo`, sysinfo.dfy).

Supporting modules:

- `Text` (text.dfy) states the JavaScript string operations the code relies on:
  `replace` with a string pattern, `padEnd`, `repeat`, `trim` and
  `split(/\s+/)`. It also holds an independent whitespace tokenizer (`Tokens`)
  that `split` is proved against.
- `Seqs` (seqs.dfy) holds `filter` and flattening.
- `Wrappers` (wrappers.dfy) holds `Option`/`Result`.

Two places where the code decides differently from what a reader might expect
are followed as written:

- The CLI name is the first argument that is neither an option nor empty.
  `else if (!name)` leaves an empty argument falsy, so the next positional
  argument still becomes the name.
- A permission sent as JSON `null` to `POST /api/keys` overrides the default,
  because the spread copies it. `createApiKey`'s `?? false` then turns it into
  false.

## Model

| member | source | states |
|---|---|---|
| Text.ReplaceFirst | functions/stats/speedtest.ts:8 | `replace` with a string pattern rewrites only the first occurrence. A string without the pattern comes back unchanged. |
| Text.PadEnd | __tests__/sysinfo.ts:38 | `padEnd` keeps the whole string as a prefix and never truncates. It adds only white space, up to the target length. |
| Text.Trim | index.ts:197 | `trim` is empty exactly for an all-white-space string. Otherwise it neither starts nor ends with white space. It is the piece of the input that starts right after the leading white space and is followed only by white space. |
| Text.TrimUnique | index.ts:197 | Any piece of the input framed by white space on both sides, and empty or with non-white ends, is what `trim` returns. |
| Text.SplitWsFields | __tests__/sysinfo.ts:42 | No field of `split(/\s+/)` contains white space. |
| Text.SplitWsTokens | __tests__/sysinfo.ts:42 | The non-empty fields of `split(/\s+/)` are exactly the words found by an independent whitespace tokenizer, in order. |
| Text.TokensJoin | __tests__/sysinfo.ts:50 | Joining two lines with one space gives the words of the first followed by the words of the second. |
| Servers.TagAt | functions/stats/utils/speedtest/servers.ts:39 | A tag match starts with `<server` at the position, followed by a run of white space. The capture is the document text from the end of that run to the first `>`, which ends the match. The capture is non-empty and free of `>`. `\s+` gives back only one character, and only when the white space reaches the `>`. |
| Servers.AttrAt | functions/stats/utils/speedtest/servers.ts:40 | An attribute match's name is non-empty and made of word characters. Its value is exactly the text between the two quotes, free of `"`. The matched text is `name="value"`. |
| Servers.ToMapKeys | functions/stats/utils/speedtest/servers.ts:48-50 | A record has an attribute exactly when some matched pair carries that name; `__proto__` is an exception (see Left out). |
| Servers.LastWins | functions/stats/utils/speedtest/servers.ts:48-50 | When a name repeats, the record holds the value of its last occurrence. |
| Servers.ParseIsFilter | functions/stats/utils/speedtest/servers.ts:43-55 | The scanner loop equals filtering the records of all matched tags by validity. |
| Servers.ParseServerXml | functions/stats/utils/speedtest/servers.ts:37-58 | Every record returned has truthy `url`, `lat` and `lon`. Records keep document order and no valid record is dropped. There are at most as many records as matched tags. |
| Servers.NoTagsNoServers | functions/stats/utils/speedtest/servers.ts:37-57 | A document without `<server` parses to no records, not an error. |
| Servers.Sort | functions/stats/utils/speedtest/servers.ts:71 | The ranking is non-decreasing in `distance \|\| 0`, so NaN sorts as 0. It is a permutation of its input. |
| Servers.SortServersByDistance | functions/stats/utils/speedtest/servers.ts:60-73 | Returns min(10, n) records, nearest first. Each is an input record with its own distance attached, and none is taken twice. No dropped record is nearer than a kept one. |
| Speedtest.ProbeUrl | functions/stats/speedtest.ts:8 | The probe URL is the server URL with its first `/upload.php` replaced by `/latency.txt`. A URL without `/upload.php` is unchanged. |
| Speedtest.ProbeAsWritten | functions/stats/speedtest.ts:6-39 | As written, an unparsable URL rejects the probe's promise. Otherwise the probe is true exactly when a response body finished. |
| Speedtest.Probe | functions/stats/speedtest.ts:25-37 | The intended probe is true exactly when a response body finished, whatever its status. It agrees with the written probe wherever that resolves. |
| Speedtest.Scan | functions/stats/speedtest.ts:44-63 | Finds the first accepted candidate in range: reachable, with a ping under 500 ms. Every earlier candidate was rejected, and a failed ping counts as a rejection. |
| Speedtest.FindBestServer | functions/stats/speedtest.ts:41-71 | Probes at most min(n, 5) candidates, in order, and stops at the first accepted one. Otherwise it falls back to the head of the list. The result is null exactly for an empty list. |
| Speedtest.ScanAgrees | functions/stats/speedtest.ts:44-63 | Where no probed URL is malformed, the written scan resolves to the intended one. |
| Speedtest.FindBestServerAsWritten | functions/stats/speedtest.ts:41-71 | As written, the selection rejects exactly when the scan reaches a malformed URL before an accepted candidate. Whenever it resolves, it chooses what the intended selection chooses. |
| Speedtest.AsWrittenAgrees | functions/stats/speedtest.ts:41-71 | Where no probed URL is malformed, the written `findBestServer` returns the intended selection. |
| Speedtest.BadUrlAbortsSelection | functions/stats/speedtest.ts:44-48 | A malformed URL on the nearest server rejects the written selection. The intended one still returns a server. |
| Speedtest.Successes | functions/stats/speedtest.ts:98-107 | Failed ping attempts are dropped, not counted as 0. No sample remains exactly when every attempt failed. |
| Speedtest.RoundHalfUp | functions/stats/speedtest.ts:113-115 | `Math.round(sum / count)` is the integer nearest the mean, halves rounded up. |
| Speedtest.AveragePing | functions/stats/speedtest.ts:98-115 | The ping fails exactly when every attempt failed. Otherwise it is the rounded mean of the successful samples. |
| Speedtest.FailureIgnored | functions/stats/speedtest.ts:104-106 | A failed attempt anywhere in the sequence leaves the average as if it had not happened. |
| Speedtest.RetriedLadder | functions/stats/speedtest.ts:120-149 | Each direction runs the 10 s then the 5 s measurement until one succeeds. The speed reported is that first success, compared against an independent first-success search, and the durations tried are the ladder up to it. Only when both fail is the speed 0. |
| Speedtest.Nearest | functions/stats/speedtest.ts:84 | The ranked shortlist is empty exactly when the catalogue holds no valid record. Every entry comes from the catalogue. |
| Speedtest.Chosen | functions/stats/speedtest.ts:84-91 | As written, choosing the server rejects exactly when the scan of the nearest servers reaches a malformed URL before an accepted one. Otherwise it chooses the intended server. |
| Speedtest.ChosenIntended | functions/stats/speedtest.ts:84-91 | With the intended probe, a server is chosen exactly when the catalogue holds a valid record, and it is one of those records. |
| Speedtest.RunSpeedtest | functions/stats/speedtest.ts:73-168 | As written, a failed lookup or fetch aborts the run. So does a malformed URL met while choosing the server: the probe's rejection reaches the outer `catch` and is rethrown. Apart from that abort the run is the intended run. |
| Speedtest.RunSpeedtestIntended | functions/stats/speedtest.ts:73-168 | With the intended probe, a failed lookup or fetch aborts the run, as do no server and no ping. A successful run carries the averaged ping and each direction's retried speed, under the chosen server's label. |
| Speedtest.RunAgrees | functions/stats/speedtest.ts:73-168 | Where no probed URL is malformed, the run as written equals the intended run. |
| Speedtest.BadUrlAbortsRun | functions/stats/speedtest.ts:13-14 | A malformed URL on the nearest server aborts the run as written. The intended run reaches a result as soon as one ping succeeds. |
| Speedtest.NoServerIffEmptyCatalog | functions/stats/speedtest.ts:87-91 | The run fails for want of a server exactly when the catalogue holds no valid record. |
| Speedtest.NoPingOnlyIfAllFail | functions/stats/speedtest.ts:87-111 | The ping error needs all three attempts to fail. Given a valid record and a selection that does not abort, all three failing is enough. For the intended run a valid record suffices. |
| Speedtest.SameLabelBothWays | functions/stats/speedtest.ts:93-160 | Download and upload carry the same `sponsor - name, country` label of a catalogue record. |
| Speedtest.UploadIndependentOfDownload | functions/stats/speedtest.ts:120-149 | The upload leg is the same whatever the download measurements did. |
| Network.LatencyMs | functions/stats/utils/speedtest/network.ts:24-25 | The latency is the elapsed nanoseconds divided by 10^6, truncated toward zero. |
| Network.DownloadUrl | functions/stats/utils/speedtest/network.ts:42-52 | The object URL is the server URL with its first `/upload.php` cut out, followed by `/random<size>.jpg`. |
| Network.Pick | functions/stats/utils/speedtest/network.ts:99 | `Math.floor(Math.random() * n)` is a valid index into a ladder of n entries. |
| Network.PatternByte | functions/stats/utils/speedtest/network.ts:146 | The byte at each index of `Buffer.from(pattern)` is that pattern character's code. |
| Network.GenerateRandomData | functions/stats/utils/speedtest/network.ts:143-156 | The payload is sizeKB·1024 bytes long. Byte k is `pattern[(k mod 1024) mod 36]`, so the pattern restarts in every 1 KiB chunk. |
| Network.Launches | functions/stats/utils/speedtest/network.ts:98-108 | Every launched transfer awaits its response and draws its size from the ladder. |
| Network.TopUp | functions/stats/utils/speedtest/network.ts:98-109 | With one clock reading per poll, the inner loop launches only while fewer than four transfers are active and the deadline has not passed. It never takes the pool past four, and before the deadline it fills the pool to four. |
| Network.Step | functions/stats/utils/speedtest/network.ts:69-115 | Bytes never decrease and change only while `shouldContinue` is set. A download counts only chunks of a status-200 response. An upload counts its payload length once, on response end. Only an open poll launches transfers. A poll at or past the deadline clears the flag, and it never comes back. |
| Network.StepKeepsPool | functions/stats/utils/speedtest/network.ts:98-108 | One event keeps at most four transfers in flight, each sized from its ladder. |
| Network.RunKeepsPool | functions/stats/utils/speedtest/network.ts:97-112 | However events interleave, in-flight transfers never exceed four and every size comes from the ladder. |
| Network.RunMonotone | functions/stats/utils/speedtest/network.ts:75-79 | The byte counter never decreases over a trace. |
| Network.RunFrozen | functions/stats/utils/speedtest/network.ts:114-115 | Once the flag is cleared, the counter is frozen through the drain. |
| Network.Measure | functions/stats/utils/speedtest/network.ts:117-123 | The measurement rejects with the no-data error exactly when no byte was counted or no time elapsed. Otherwise it reports bytes·8 / seconds / 2^20, positive when time moved forward. |
| Network.NoOpenPollNoBytes | functions/stats/utils/speedtest/network.ts:97-98 | A trace with no poll before the deadline launches nothing and counts nothing. |
| Network.ZeroDurationFails | functions/stats/utils/speedtest/network.ts:94-120 | With duration 0 the loop never runs, and the call rejects without dividing. |
| Keys.OrFalse | functions/keys/createKey.ts:30 | `flag ?? false` is true only for an explicit `true`. |
| Keys.Complete | functions/keys/createKey.ts:29-35 | Each of the five flags is the supplied boolean, with an explicit false kept. A missing or null flag becomes false. |
| Keys.AlphabetIsAlnum | functions/keys/createKey.ts:8-9 | The alphabet has 62 characters, `A`–`Z`, `a`–`z`, `0`–`9`. It holds exactly the ASCII letters and digits. |
| Keys.MakeId | functions/keys/createKey.ts:7-23 | `makeid(n)` has length n. Character i is `characters[\|floor(mix_i)\| mod 62]`, hence alphanumeric. |
| Keys.CreateKey | functions/keys/createKey.ts:27-56 | The new key carries the name, the UUID, the creation time, the completed permissions and a 45-character alphanumeric key string. It is appended after the stored keys, which are empty if the file was unreadable. A failed write rejects. |
| Keys.CreateKeepsEarlier | functions/keys/createKey.ts:45-52 | Creation leaves every earlier entry in place and adds exactly one, at the end. |
| Keys.ListAfterCreate | functions/keys/createKey.ts:45-53 | After a create, `loadKeys` lists the earlier keys in order and then the new one. |
| Keys.SurvivorsSpec | functions/keys/deleteKey.ts:16-17 | Every entry whose uuid or key equals the identifier goes, not only the first. The rest stay in order, each as often as before. The list shrinks exactly when some entry matched. |
| Keys.DeleteKey | functions/keys/deleteKey.ts:6-30 | The result is false, with nothing written, if the file is unreadable or nothing matched. Otherwise the strictly shorter list of survivors is written. The result is true exactly when that write succeeds. |
| Keys.DeleteTwiceFails | functions/keys/deleteKey.ts:17-21 | Deleting the same identifier a second time finds nothing and returns false. |
| Keys.ListAfterDelete | functions/keys/deleteKey.ts:16-24 | After a successful delete, `loadKeys` lists fewer keys. None is named by the identifier, and every key not named by it is listed as often as before. |
| Auth.ExtractKey | functions/auth.ts:23-25 | The key comes from the first truthy source: `x-api-key`, then `authorization` without its first `Bearer `, then query `apiKey`. It is absent only when all three are falsy. |
| Auth.BearerToken | functions/auth.ts:24 | A `Bearer <token>` header alone presents the token. |
| Auth.FindKey | functions/auth.ts:35 | Finds the first stored entry whose key string equals the presented key exactly. It is absent exactly when no entry does. |
| Auth.MissingSpec | functions/auth.ts:45-47 | The missing permissions are the required ones, in order, whose flag on the key is false. The list is empty exactly when the key holds them all. |
| Auth.Authenticate | functions/auth.ts:21-62 | No key gives 401 "No API key provided." An unknown key gives 401 "Invalid API key.", and so does every key when the file is unreadable. Missing permissions give 403 with `required` and `missing`. Otherwise the request passes with the found key, and an absent requirement list skips the check. Exactly one of these happens. |
| Auth.CreatedKeyAuthenticates | functions/auth.ts:34-60 | A freshly created key, presented in `x-api-key`, passes for any permissions it was granted. |
| Cli.FirstName | cli/apikey.ts:42-48 | The name is the first argument that is neither an option nor empty, and later positionals are ignored. It is empty exactly when there is none. |
| Cli.ResolveCreateArgs | cli/apikey.ts:39-48 | The argument loop yields that name, and the options are exactly the `--` arguments in order. |
| Cli.ResolvePermissions | cli/apikey.ts:56-77 | `--admin` grants all five permissions and overrides every other flag. Without it, each named flag grants its permission. `viewStats` holds unless `--no-viewStats` is given, even alongside `--viewStats`. |
| Cli.UnknownFlagIgnored | cli/apikey.ts:70-77 | An unknown flag changes no permission. |
| Cli.CreateCommand | cli/apikey.ts:38-98 | A missing name exits 1 before anything is created. Otherwise the exit is 0 exactly when the key file is written, holding the named key. |
| Cli.DeleteCommand | cli/apikey.ts:132-154 | A missing identifier exits 1. Otherwise the exit is 0 exactly when `deleteApiKey(args[0])` succeeds, and only then is anything written. |
| Cli.Dispatch | cli/apikey.ts:10-36 | Only `create`, `list` and `delete` dispatch, and any other command exits 1. `list` never fails and writes nothing. |
| Cli.DeletedKeyRejected | cli/apikey.ts:132-154 | Once `delete <key>` has succeeded, presenting that key string to the server is answered 401 "Invalid API key.", whatever permissions are required. |
| Cli.CreateThenDeleteRestores | cli/apikey.ts:10-154 | `create` followed by `delete <uuid>` of the new key writes back exactly the list there was before. This assumes no earlier entry is named by that uuid. |
| Sniffer.NewIsSilent | functions/logs/network/sniffer.ts:19-57 | A new sniffer calls no one, and unregistering from it changes nothing. After one registration, exactly that callback receives each packet, once. |
| Sniffer.OnPacket | functions/logs/network/sniffer.ts:51-53 | The callback is appended at the end and every earlier registration stays. It is registered once more, and no other callback's count changes. |
| Sniffer.OffPacket | functions/logs/network/sniffer.ts:55-57 | Every registration of the callback goes, the others keep their order and multiplicity. An unregistered callback leaves the list unchanged. |
| Sniffer.OffPacketIdempotent | functions/logs/network/sniffer.ts:55-57 | Unregistering twice is unregistering once. |
| Sniffer.OffUndoesOn | functions/logs/network/sniffer.ts:51-57 | Registering then unregistering drops the callback entirely, earlier registrations included. |
| Sniffer.Slice | functions/logs/network/sniffer.ts:39 | `buf.slice(start, end)` clamps both bounds to the buffer. An end before the start gives an empty slice. |
| Sniffer.MakePacket | functions/logs/network/sniffer.ts:29-42 | The packet length is `nbytes`. The payload is the buffer from byte 14 up to the frame's end, clamped to the buffer, and empty for frames of at most 14 bytes. |
| Sniffer.DeliverOrder | functions/logs/network/sniffer.ts:43-53 | Delivery follows registration order: the callback registered last is called last, after all earlier ones. |
| Sniffer.CallsPerRegistration | functions/logs/network/sniffer.ts:43 | A callback receives each packet once per registration. |
| Sniffer.DeliveryAfterRegistration | functions/logs/network/sniffer.ts:43-57 | An unregistered callback receives nothing. One registered twice more receives the packet twice more. |
| Routes.Guarded | index.ts:25-82 | A route's handler runs only for a request that `authenticate` passes, and sees that request's key. Otherwise the guard's 401/403 is the answer and nothing is written. |
| Routes.MergePermissions | index.ts:32-40 | Each field the caller sent, `null` included, overrides the default. A missing field keeps its default. |
| Routes.RoutePermissions | index.ts:32-43 | A key created through the route gets each supplied boolean. A missing field keeps its default, and an explicit `null` becomes false. |
| Routes.CreateHandler | index.ts:25-48 | A missing or non-string name gives 400. A failed write gives 500. Otherwise 201 returns the named key and appends it to the stored list. |
| Routes.CreateRoute | index.ts:25-48 | A 201 needs an authorised caller and a name. An unreadable key file always answers 401 and writes nothing. |
| Routes.ListHandler | index.ts:50-63 | The list route returns every stored key, in order, with uuid, name, permissions and `createdAt`, and without the key string. |
| Routes.DeleteHandler | index.ts:65-82 | An empty identifier gives 400. A successful deletion gives 200 and anything else 404. Only a 200 writes. |
| Routes.DeleteRouteTwice | index.ts:65-82 | After a 200 from the delete route, the key list shows no key with that identifier as uuid. Repeating the request gets 404 and writes nothing. |
| Routes.Start | index.ts:194-225 | A non-string or blank interface gives 400, and so does a running sniffer; the state is unchanged in both cases. Otherwise the sniffer is recorded on the trimmed name and the logs are untouched. If `start()` throws, the sniffer stays recorded with no callback and the answer is 500. |
| Routes.StartThenStop | index.ts:194-242 | A start followed by a stop, both without errors, gives back the state there was: no sniffer, and logs untouched. |
| Routes.FailedStartBlocksRestart | index.ts:205-242 | When `start()` throws, the sniffer is still recorded. Every later start is refused with 400 "already running" until a stop goes through, and that stop restores the state from before. |
| Routes.Append | index.ts:210-214 | Push then shift once when over the cap: the log is the newest entries of old-log-plus-packet, one more up to the cap. |
| Routes.LogPacket | index.ts:209-215 | The packet becomes the newest entry of both logs, and the sniffer is untouched. |
| Routes.LogPacketKeepsAgreement | index.ts:210-214 | The full log stays within 100000 entries. The recent log stays equal to the newest min(1000, \|all\|) entries of the full log. |
| Routes.LogManyKeepsAgreement | index.ts:210-214 | That agreement holds after any sequence of packets. |
| Routes.ClearLogs | index.ts:258-262 | Clearing empties both logs and keeps the sniffer. The cleared state satisfies the log agreement. |
| Routes.AllLogsAfterClear | index.ts:209-262 | After the logs are cleared, `/logs/all` reports exactly the packets captured since, in order, with `total` their number, up to the cap. The recent log holds the newest 1000 of them. |
| SysInfo.PlaceWord | __tests__/sysinfo.ts:46-51 | Placing one word adds exactly that word to the lines, whether it flushes the current line or joins it. |
| SysInfo.PlaceAllWords | __tests__/sysinfo.ts:45-52 | Placing the words loses none, duplicates none and reorders none. |
| SysInfo.PlaceAllFits | __tests__/sysinfo.ts:46-51 | Every line produced is empty, within the limit, or a single word. None carries an escape its words lack. |
| SysInfo.Wrap | __tests__/sysinfo.ts:42-55 | The wrapped lines hold exactly the text's words, in order. Each line fits the limit unless it is a single over-long word. The wrap is greedy: no line could have taken the next line's first word, because the two joined by a space would pass the limit. |
| SysInfo.PlaceAllGreedy | __tests__/sysinfo.ts:46-51 | Placing words keeps the greedy invariant. A word starts a new line only when it would take the current line past the limit. |
| SysInfo.ContentKeepsWords | __tests__/sysinfo.ts:41-56 | Every word of the box content appears exactly once in the emitted lines, in order. |
| SysInfo.BorderShape | __tests__/sysinfo.ts:37 | A border shows width−2 rules between two corners, so it is `width` columns wide. |
| SysInfo.TextRowShape | __tests__/sysinfo.ts:38 | A text row shows 4 + max(\|text\|, width−4) columns: padded, never truncated. |
| SysInfo.BlanksShape | __tests__/sysinfo.ts:69 | `' '.repeat(n)` shows exactly n columns and carries no escape. |
| SysInfo.CreateBox | __tests__/sysinfo.ts:32-60 | A box is the top border, the title row, the separator, one row per wrapped line and the bottom border, so it has at least 4 lines. Each frame line is stated with its corner characters and `width - 2` inner columns. A width below 2 throws. |
| SysInfo.BoxIsRectangular | __tests__/sysinfo.ts:32-60 | When the title and every word fit, every line shows exactly `width` columns. |
| SysInfo.MaxHeight | __tests__/sysinfo.ts:63 | The height is that of the tallest box. |
| SysInfo.MergeAsWritten | __tests__/sysinfo.ts:62-75 | The merged row has as many lines as the tallest box. Line i joins each box's line i, each followed by `spacing` blanks. An ended or empty line is replaced by blanks as many as the box's first line has characters. |
| SysInfo.Merge | __tests__/sysinfo.ts:62-75 | Merging with the filler as wide as the box shows, every line of uniform boxes is exactly a full row wide. |
| SysInfo.ShortBoxShifts | __tests__/sysinfo.ts:69 | As written, a line below the end of a shorter left box is too wide by the escape characters in that box's first line. |
| SysInfo.TallerNeighbourShifts | __tests__/sysinfo.ts:69 | For two boxes made by `createBox`, the rows below the shorter left box are \|colour\| + 4 columns wider than the rows above. |
| SysInfo.Layout | __tests__/sysinfo.ts:79-82 | The terminal width is the reported column count, or 80 when it is missing or 0. Beyond 160 / 120 / 80 columns a row holds 4 / 3 / 2 boxes, otherwise 1. Box width is floor((W − 2(n−1)) / n), so a row fits with under one column per box to spare. |
| SysInfo.Chunks | __tests__/sysinfo.ts:189-190 | The sections are laid out in order in rows of n, only the last row shorter. |
| SysInfo.RowBoxes | __tests__/sysinfo.ts:191-193 | A row holds one box per section, in order. |
| SysInfo.RowAligned | __tests__/sysinfo.ts:189-196 | With the corrected filler and every section fitting, each merged line of a row is exactly \|row\|·(width + 2) columns wide. |
| SysInfo.PrintRow | __tests__/sysinfo.ts:191-197 | A row prints exactly its merged lines, then a blank line. The filler is measured as written (`Length`) or corrected (`Width`). An empty row prints two blank lines. A box too narrow to draw ends the report. |
| SysInfo.PrintRowAligned | __tests__/sysinfo.ts:191-197 | With the corrected filler and every section fitting, every printed line but the closing blank one is a full row. |
| SysInfo.PrintRows | __tests__/sysinfo.ts:189-198 | Printing rows fails exactly when there is a section and the box width is below 2. |
| SysInfo.PrintRowsFit | __tests__/sysinfo.ts:189-198 | With the corrected filler and every section fitting, every printed line is blank or at most n boxes wide. |
| SysInfo.PrintSystemInfo | __tests__/sysinfo.ts:77-199 | The report as written fails exactly when the terminal reports one column and there is a section to show. When every section fits and the boxes in each row are equally tall, no printed line is wider than the terminal plus one gap. |
| SysInfo.RowAgrees | __tests__/sysinfo.ts:62-75 | For a fitting row whose sections wrap to equally many lines, the as-written and the corrected merge print the same lines, because no box ends early. |
| SysInfo.ReportOverhangs | __tests__/sysinfo.ts:69 | Two cyan sections on a 100-column terminal, the left one shorter: as written, the line below the left box is 111 columns wide, past the 102 allowed. Corrected, it is 102. |
| SysInfo.PrintSystemInfoIntended | __tests__/sysinfo.ts:77-199 | With the corrected filler, the report fails in the same cases. Whenever every section fits, every line is blank or at most the terminal width plus one gap. |

## Left out

- Network I/O is not modelled: the geo-IP lookup, the catalogue fetch, and the probe, ping and transfer requests. Their outcomes are oracle inputs.
- The haversine distance and `getUserLocation` are not modelled: functions/stats/utils/speedtest/location.ts is not part of this model, and distance is an uninterpreted function returning a number or NaN.
- Concurrency, timers and `Promise.all` are not modelled. The transfer pool is a sequential trace of polls, response heads, chunks, ends and failures, and the 100 ms sleep is left out.
- Wall-clock readings, `process.hrtime`, `Math.random`, `crypto.randomUUID` and the XOR mix of `makeid` are inputs.
- IEEE floating point is not modelled: speeds are exact reals, and the `toFixed(2)` / `parseFloat` rounding of the result (functions/stats/speedtest.ts:154, 158) is left out.
- File persistence and JSON parsing of the key file are replaced by a read outcome (the parsed list, or unreadable) and a write outcome.
- Express wiring is not modelled: body parsing, CORS, the rate limiter and the JSON encoding of responses.
- The `/health` route and the speedtest, system-data, process and power routes (index.ts:20-22, 86-184) are thin wrappers over code that is not part of this model.
- Packet capture is not modelled: `Cap.open`/`close` and the Ethernet decoder. `start()`/`stop()` failures are inputs, and so is the decoded header.
- Console output, `console.clear` and ANSI colour rendering are not modelled. Printed lines are a sequence of strings.
- The system queries and `formatBytes` that fill the sysinfo sections (__tests__/sysinfo.ts:16-21, 84-186) are not modelled; the sections are an input.
- The CLI's `listApiKeys` printout is not modelled; only its exit status is.
- The `main().catch(console.error)` tail of the CLI is not modelled.
- Servers.SortServersByDistance: states sortedness, membership and that no dropped record is nearer. It does not state the order among equally distant records, which the engine's stable sort fixes.
- Keys.MakeId: the mix of clock and random values is an input per position. Only the alphabet, the length and the index formula are stated, not any distribution.
- Network.Measure: the speed is an exact real quotient, so float rounding is not reflected.
- SysInfo.PrintSystemInfo: widths are counted in code points, with SGR escapes taking no column. For the report as written, the width bound is stated only when every section fits its box and the boxes in each row wrap to equally many lines. Below a shorter box the filler is |colour| + 4 columns too wide (see Findings), and SysInfo.ReportOverhangs exhibits it. The unconditional bound is stated for SysInfo.PrintSystemInfoIntended. A row's trailing gap can overhang the terminal by up to two columns, which the bound allows.
- Sniffer.MakePacket: the payload is modelled as a copy of the frame bytes. In the source it is a `Buffer.slice` view into the one capture buffer, so a packet kept in a log shows whatever bytes a later frame wrote there. That aliasing is not modelled.
- Keys.OrFalse, Keys.Complete, Routes.MergePermissions: a permission flag is modelled as missing, `null` or a boolean. Other JSON values (a string, a number, an object) survive `?? false` unchanged, and `authenticate` then reads them by truthiness; they are not modelled.
- Network.TopUp: the clock is read once per poll. The source reads `Date.now()` again on every pass of the inner loop (functions/stats/utils/speedtest/network.ts:97-98), so a deadline passing mid-loop can stop the top-up early; that case is not modelled.
- Servers.ToMapKeys: an attribute named `__proto__` is stored like any other name. In the source, assigning `obj["__proto__"]` on a plain object sets its prototype instead of adding a key; that case is not modelled.
- Speedtest.RunSpeedtest: the timestamp is an opaque integer from the clock input.

## Findings

| source | as written | input that shows it | evidently intended | confidence | as-written member | corrected member |
|---|---|---|---|---|---|---|
| functions/stats/speedtest.ts:13-14 | `new URL(testUrl)` runs inside the promise executor, so a malformed URL rejects the returned promise. The surrounding `try`/`catch` does not await that promise and never sees the rejection, and `findBestServer` awaits the probe outside its own `try`. One malformed URL among the nearest five, reached before an accepted server, therefore aborts the whole speed test. | a catalogue whose nearest record has `url="upload.php"` (no scheme) | the probe reports false and the scan moves on to the next candidate | not executed; high | Speedtest.ProbeAsWritten, Speedtest.FindBestServerAsWritten, Speedtest.BadUrlAbortsSelection, Speedtest.Chosen, Speedtest.RunSpeedtest, Speedtest.BadUrlAbortsRun | Speedtest.Probe, Speedtest.FindBestServer, Speedtest.ChosenIntended, Speedtest.RunSpeedtestIntended |
| __tests__/sysinfo.ts:69 | An ended box is filled with `box[0].length` blanks. That counts the colour escape and reset in the box's first line, not just its visible width. | two sections in one row in cyan, the left one with fewer wrapped lines: the rows below the left box's end are 9 columns too wide, pushing the right box off its border | fill with as many blanks as the box is wide on screen | not executed; high | SysInfo.MergeAsWritten, SysInfo.TallerNeighbourShifts, SysInfo.ReportOverhangs | SysInfo.Merge, SysInfo.RowAligned, SysInfo.PrintRowAligned, SysInfo.PrintRowsFit, SysInfo.PrintSystemInfoIntended |
