# fir-proxy, modelled in Dafny

fir-proxy is a desktop tool that gathers free proxies from public lists and validates them. It pools the working ones and serves them to local clients through an HTTP and a SOCKS5 relay. The relay rotates over the pool.

This project models the logic at the heart of that tool and proves properties of the model:

- **The pool** (`Rotator.ProxyRotator`). It holds the pooled results, the per-country lists, one round-robin cursor per (region, quality) view, and the current proxy.
- **The validator's decisions** (`Checker`):
  - the location cascade and its /24 cache;
  - the anonymity classifier;
  - how a result is built up from its probes;
  - the pre-check threshold;
  - the result stream, which ends with exactly one end marker.
- **The relay's front ends** (`Server`):
  - the SOCKS5 handshake of RFC 1928, sections 3 to 6;
  - the HTTP first line, for CONNECT tunnels as in section 9.3.6 of RFC 9110 and for forwarded requests;
  - the choice of upstream proxy;
  - the running flag of the listeners.
- **The window's bookkeeping** (`App`, `Imports`, `Labels`, `Records`):
  - the score;
  - de-duplication of results;
  - the revalidation merge;
  - the region menu and its labels;
  - the list filter;
  - the text import of a proxy file and the `.txt` export line;
  - the server and auto-rotation toggles.
- **The gatherers**, covering the candidate lists:
  - `Fetcher`: `_parse_proxies_from_text`, the 66ip and fatezero scrapers, and the protocol buckets of `fetch_all`;
  - `Hq`: `clean_proxy_line`, `deduce_protocol`, the classification loop, and the saved files;
  - `Xdl`: the JSON and text classification loop, and the saved files.

Helper modules hold the Python semantics the rest relies on:

- `Text`: `strip`, `split`, `lower`, `splitlines` and `int` over ASCII.
- `Utf8`: `bytes.decode('utf-8')`, strict and with `errors='ignore'`.
- `Patterns`: the address regular expressions, written out as matchers.
- `Sorting`: `sorted`, both stable-descending by a key and ascending over strings.
- `Wrappers`: `Option`.

Every network answer, probe, JSON decoding and `urlparse` result is a parameter: an oracle value, or `None` where the call raises or fails. A file is its sequence of lines. A latency is a positive `real`, and `None` means `float('inf')`.

Python lists hold references to shared dictionaries. The pool therefore pairs each result with an identity. This lets the revalidation merge update one dictionary everywhere it is referenced, as `dict.update` does at fir-proxy/main.py:601.

Where the code and its documentation disagree, the model follows the code:

- When the latency probe succeeded but the anonymity probe then fails, the checker returns the failed result with its measured latency already set. It does not return the initial infinite latency. The same holds for a Transparent result (fir-proxy/modules/checker.py:168-178).
- `deduce_protocol` never returns `socks4` for a line marked "socks4". The socks test comes first, so such a line is SOCKS5.
- A revalidation that changes a proxy's country leaves its dictionary in the old country's list. A later removal then leaves that entry behind. `Rotator.RelocatedEntryOutlivesRemoval` proves this. The partition invariant `Indexed()` is therefore promised by add, remove, clear and rotation only, and not by a merge that relocates.

## Model

| member | source | states |
|---|---|---|
| Records.Scored | fir-proxy/main.py:270-276 | The scored result carries 50/latency (0 for an infinite latency) + 10·speed + the anonymity bonus, and differs from the input in the score only |
| Records.ScoreFallsWithLatency | fir-proxy/main.py:272 | All else equal, a strictly smaller latency gives a strictly higher score |
| Records.MeasuredBeatsInfinite | fir-proxy/main.py:272 | Any measured latency scores higher than an infinite one |
| Records.BonusOrder | fir-proxy/main.py:274-275 | Elite is worth 30 more than Anonymous, Anonymous 20 more than Transparent, and Transparent the same as Unknown |
| Records.ScoreExamples | fir-proxy/main.py:270-276 | Worked values of the formula: 0.1 s, 52 Mbps and Elite give 1070; nothing measured gives 0 |
| Records.QualityFiltersDiffer | fir-proxy/main.py:234 | The list's latency ≤ 2.0 filter and the pool's latency·1000 < 2000 premium test disagree exactly at 2.0 s; premium implies listed |
| Rotator.FirstWithAddress | fir-proxy/modules/rotator.py:38-41 | The linear search finds the first entry with the address, and none means no entry has it |
| Rotator.NextIndex | fir-proxy/modules/rotator.py:115-119 | The cursor after the stored one (−1 when absent), wrapped, is always a valid position of the view |
| Rotator.ProxyRotator.constructor | fir-proxy/modules/rotator.py:8-13 | A new pool is empty, with no lists, cursors or current proxy, and is indexed |
| Rotator.ProxyRotator.Clear | fir-proxy/modules/rotator.py:15-21 | Empties the pool, the country lists and the cursors, and forgets the current proxy; the invariants hold afterwards |
| Rotator.ProxyRotator.FindAddress | fir-proxy/modules/rotator.py:38-41 | The search loop returns the first position holding the address, or None |
| Rotator.ProxyRotator.AddProxy | fir-proxy/modules/rotator.py:23-32 | A pooled address leaves everything unchanged; otherwise the result is appended to the pool and to its country's list, which is opened last when it is new; unique addresses and the partition are kept |
| Rotator.ProxyRotator.File | fir-proxy/modules/rotator.py:30-32 | The defaultdict append: the entry joins its country's list, and a new country is added to the key order last |
| Rotator.ProxyRotator.RemoveProxy | fir-proxy/modules/rotator.py:34-58 | Returns true iff the address was pooled; that entry leaves the pool and its country's list (deleted once empty), current is cleared iff it equals the removed result, and afterwards no entry has the address |
| Rotator.ProxyRotator.Unfile | fir-proxy/modules/rotator.py:46-53 | The list of the country the removed result names loses its first equal entry and is deleted once empty; without such a list nothing changes |
| Rotator.ProxyRotator.GetWorkingProxiesCount | fir-proxy/modules/rotator.py:60-63 | The count is the pool's length |
| Rotator.ProxyRotator.GetCurrentProxy | fir-proxy/modules/rotator.py:122-125 | Returns the current result, or None when there is none |
| Rotator.ProxyRotator.GetAvailableRegionsWithCounts | fir-proxy/modules/rotator.py:65-81 | The counts, in the countries' insertion order, are the list lengths, or the non-zero premium counts |
| Rotator.ProxyRotator.CountPremium | fir-proxy/modules/rotator.py:76 | The loop counts exactly the premium entries of a list |
| Rotator.ProxyRotator.PremiumOf | fir-proxy/modules/rotator.py:100-106 | The loop keeps exactly the premium entries, in order |
| Rotator.ProxyRotator.GetNextProxy | fir-proxy/modules/rotator.py:84-120 | An empty view clears current and returns None; otherwise the entry after the view's stored cursor, wrapped, becomes current and is returned, and only that view's cursor moves; an unknown region draws from the whole pool under the "All" cursor |
| Rotator.ProxyRotator.SetCurrentProxyByAddress | fir-proxy/modules/rotator.py:127-134 | The first pooled result with the address becomes current and is returned; otherwise None, and current is unchanged |
| Rotator.ProxyRotator.UpdateInPlace | fir-proxy/main.py:601 | The dictionary of the pooled result with that address is overwritten wherever it is referenced (pool, country list, current); nothing is refiled |
| Rotator.AddKeeps | fir-proxy/modules/rotator.py:23-32 | Appending a result for a new address keeps unique addresses, unique identities and the key order |
| Rotator.RemoveKeeps | fir-proxy/modules/rotator.py:34-58 | Removing a pooled entry keeps every structural invariant |
| Rotator.ReplaceKeepsAll | fir-proxy/main.py:601 | An in-place merge for the same address keeps every structural invariant, also when the location changes |
| Rotator.CursorKeysDistinct | fir-proxy/modules/rotator.py:113 | Different (region, premium) views never share a cursor key |
| Rotator.RotationServesEachOnce | fir-proxy/modules/rotator.py:115-119 | Len(view) successive draws on an unchanged view hand out the view rotated after the stored cursor, so each entry exactly once |
| Rotator.CountsMatchPool | fir-proxy/modules/rotator.py:65-81 | With the lists indexing the pool, the reported counts sum to the size of the view an "All" rotation draws from |
| Rotator.RelocatedEntryOutlivesRemoval | fir-proxy/modules/rotator.py:46-53 | After a merge that moves a proxy to another country, removing it leaves its dictionary in the old country's list |
| Checker.CacheKeyParts | fir-proxy/modules/checker.py:128 | The cache key splits back into exactly the first three dot components of the address |
| Checker.SharedEntryIff | fir-proxy/modules/checker.py:128-130 | Two addresses share a cache entry iff their first three components agree |
| Checker.CacheKeyOfQuad | fir-proxy/modules/checker.py:128 | For a dotted quad, the key is the /24 network whatever the last octet |
| Checker.FirstAnswer | fir-proxy/modules/checker.py:136-143 | Finds the first truthy answer in order; every earlier one (or every one, when none is found) is falsy or raised |
| Checker.LocateCascade | fir-proxy/modules/checker.py:127-144 | A hit answers from the cache with no lookup; a miss asks up to the first truthy answer, returns it and caches it; when none answers it gives "Unknown" and leaves the cache unchanged |
| Checker.FoundStaysCached | fir-proxy/modules/checker.py:129-141 | Once a location is found, every later query for the same /24 gets it from the cache, with no lookup, whatever the services say |
| Checker.MentionsIff | fir-proxy/modules/checker.py:176 | `any(public_ip in ip ...)` holds iff some origin entry contains the address |
| Checker.ClassifyIff | fir-proxy/modules/checker.py:173-182 | Transparent iff our public address shows in an entry; otherwise Anonymous iff the origin text has a comma or a Via header came back, and Elite iff neither; never Unknown |
| Checker.OutcomeOfProbes | fir-proxy/modules/checker.py:156-207 | No result exactly when the latency probe passed and the echo cannot be read (the error escapes the `RequestException` handler); otherwise the address is kept and the protocol upper-cased; Working iff the latency and anonymity probes passed and the result is not Transparent; a Working result has the probed latency, class and location, and a speed only if latency ≤ 7 and the download had positive size and duration; a failed one keeps "N/A" |
| Checker.OutcomeOwnLocation | fir-proxy/modules/checker.py:202 | A result depends on the location query only when it is Working |
| Checker.FlattenMembers | fir-proxy/modules/checker.py:210 | The flattened candidates are exactly the listed addresses, each tagged with its protocol |
| Checker.PassingIsFilter | fir-proxy/modules/checker.py:219-223 | The pre-check keeps each candidate that passes, as often as it is listed, and no other |
| Checker.SurvivorsRule | fir-proxy/modules/checker.py:213-224 | Above 10000 candidates everyone survives; otherwise exactly the candidates that pass the pre-check |
| Checker.CompletedIsFilter | fir-proxy/modules/checker.py:232-240 | The survivors that get a result are exactly those whose check does not raise, each as often as it survived |
| Checker.CompletedCount | fir-proxy/modules/checker.py:232-240 | A run has at most one result per survivor, and exactly the survivors when no check raises |
| Checker.ProxyChecker.constructor | fir-proxy/modules/checker.py:15-29 | A new checker has an empty cache and no public address |
| Checker.ProxyChecker.InitializePublicIp | fir-proxy/modules/checker.py:31-58 | The stripped output of the address service is adopted iff it is non-empty and holds a dot; otherwise the public address is unchanged |
| Checker.ProxyChecker.GetProxyLocation | fir-proxy/modules/checker.py:127-144 | The cascade loop returns the location, the new cache and the lookup count that LocateCascade describes |
| Checker.ProxyChecker.FullCheck | fir-proxy/modules/checker.py:156-207 | Filling the result stage by stage gives CheckOutcome, None where it raises, at the location the cascade answers, and updates the cache as the cascade does |
| Checker.ProxyChecker.CheckOne | fir-proxy/modules/checker.py:232-240 | The worker gives no result exactly when its check raises; a result it gives is a full check of the candidate |
| Checker.ProxyChecker.PreCheckAll | fir-proxy/modules/checker.py:213-224 | The pre-check loop computes the Survivors rule |
| Checker.ProxyChecker.CheckAll | fir-proxy/modules/checker.py:228-242 | One result per survivor whose worker did not raise, in order, each a full check of that survivor, then exactly one None |
| Checker.ProxyChecker.ValidateAll | fir-proxy/modules/checker.py:209-242 | The survivors of the flattened candidates, then one full-check result per survivor whose worker did not raise, and exactly one final None, also when nobody survives |
| Server.KindIgnoresCase | fir-proxy/modules/server.py:122-123 | The protocol-to-type map reads the name in any case |
| Server.SelectsPooledProxy | fir-proxy/modules/server.py:105-131 | A current proxy "host:port" with a supported protocol is reached through exactly that host, port and type; an unsupported protocol reaches nothing |
| Server.NoRouteWithoutUsableProxy | fir-proxy/modules/server.py:107-127 | No current proxy, a missing address or protocol, or an unsupported protocol gives no route |
| Server.Take | fir-proxy/modules/server.py:181-200 | A read of n bytes takes a prefix of what remains, of length n unless the stream ends first |
| Server.Socks5Parse | fir-proxy/modules/server.py:181-200 | The connection is refused before any reply iff the first byte is not 5 (or fewer than two bytes came); a CONNECT read back has VER 5, CMD 1 and ATYP 1 or 3 |
| Server.Socks5Session | fir-proxy/modules/server.py:177-208 | The client gets nothing unless the greeting starts with 5, then "05 00"; a parsed CONNECT names the target asked of the upstream, and the success reply follows exactly when that upstream is obtained; a refused request asks for nothing and relays nothing; nothing is sent upstream |
| Server.Socks5RoundTrip | fir-proxy/modules/server.py:181-200 | A well-formed greeting and CONNECT request (IPv4 or domain, big-endian port), followed by anything, asks for exactly that destination and port |
| Server.Socks5SessionOfRequest | fir-proxy/modules/server.py:177-208 | A well-formed greeting and CONNECT request make the relay ask the upstream for exactly that destination and port, and reply success exactly when that connection is obtained |
| Server.Socks5RefusesOtherAddressTypes | fir-proxy/modules/server.py:190-198 | An ATYP other than 1 or 3 (IPv6 included) ends the session after the method reply, with no reply to the request |
| Server.Socks5ConnectOnly | fir-proxy/modules/server.py:187-188 | A command other than CONNECT ends the session after the method reply |
| Server.FirstLine | fir-proxy/modules/server.py:148 | The first line is a prefix of the request bytes |
| Server.HttpSession | fir-proxy/modules/server.py:140-168 | A parsed tunnel or a forwarded request with a hostname names the target asked of the upstream, and relays exactly when that upstream is obtained; a bad first line or a missing hostname closes with nothing sent; a tunnel answers "200 Connection Established" and sends nothing upstream; a relayed forward sends the first read upstream unchanged |
| Server.RequestLineReadsBack | fir-proxy/modules/server.py:148 | A request line without CR, encoded and cut at the first CR LF, decodes back to itself |
| Server.RequestLineTokens | fir-proxy/modules/server.py:149 | Three tokens joined by single spaces split back into those three tokens |
| Server.TunnelOf | fir-proxy/modules/server.py:149-153 | A CONNECT line whose target splits into a host and a decimal port is a tunnel to exactly that host and port |
| Server.ConnectRoundTrip | fir-proxy/modules/server.py:148-164 | A CONNECT request for "host:port" whose first line fits in the first read opens a tunnel to exactly that host and port |
| Server.ConnectSession | fir-proxy/modules/server.py:140-168 | A CONNECT request for "host:port" asks the upstream for that host and port, and is acknowledged to the client exactly when that connection is obtained |
| Server.ForwardSession | fir-proxy/modules/server.py:140-168 | A request of another verb whose url has a hostname goes to that hostname at its port (80 when none), relays exactly when that connection is obtained, and then sends the first read upstream unchanged |
| Server.ProxyServer.constructor | fir-proxy/modules/server.py:12-25 | A new server is stopped |
| Server.ProxyServer.StartAll | fir-proxy/modules/server.py:30-41 | Afterwards the server runs; the listeners are started once only when it was stopped |
| Server.ProxyServer.StopAll | fir-proxy/modules/server.py:42-61 | Afterwards the server is stopped, and no listener is started |
| Utf8.IgnoreAgreesWithStrict | fir-proxy/modules/server.py:148 | Where strict decoding succeeds, decoding with errors='ignore' gives the same text |
| Utf8.DecodeEncode | fir-proxy/modules/server.py:195 | Strict decoding inverts UTF-8 encoding |
| Utf8.EncodeAscii | fir-proxy/modules/server.py:148 | An ASCII text encodes one byte per character, each its code |
| Labels.LazyFromIsShortest | fir-proxy/main.py:222 | The lazy group `(.+?)` is the shortest run, without a newline, after which `\s*\(\d+\)` matches |
| Labels.LazyFromFinds | fir-proxy/main.py:222 | Conversely, the shortest such run is the one the match finds |
| Labels.LabelRoundTrip | fir-proxy/main.py:332-334 | A label "{region} ({count})" reads back as its region, for any count, when the region is one line with no outer whitespace and no "(digits)" inside |
| Labels.TaggedRegionIsCut | fir-proxy/main.py:222-224 | A region whose name ends in " (digits)" loses that suffix when its label is read back |
| Labels.LabelNotAllRegions | fir-proxy/main.py:332-334 | No region label is empty or equal to the all-regions entry |
| Labels.SelectedRegion | fir-proxy/main.py:219-224 | An empty selection or the all-regions entry gives the fallback key |
| Labels.RotateKeyOfLabel | fir-proxy/main.py:422-427 | A region's label rotates and filters through that region; the all-regions entry rotates through "All" and lists every region |
| Labels.MenuShape | fir-proxy/main.py:331-334 | The menu is the all-regions entry, then one label per count entry in descending count order, each reading back to its region |
| Labels.Reselect | fir-proxy/main.py:344-353 | The selection moves to the first menu entry that starts with the remembered region, or to the all-regions entry |
| Imports.Canonical | fir-proxy/main.py:510 | A recognised protocol maps to a bucket, with https as http |
| Imports.SchemeMatch | fir-proxy/main.py:506 | `(\w+)://(.+)` gives a non-empty word prefix, then "://", then a non-empty rest without a newline |
| Imports.ParseImportLine | fir-proxy/main.py:501-517 | A kept line always has a bucket protocol and an address matching the whole-string pattern |
| Imports.ParseBlank | fir-proxy/main.py:503-504 | A line is passed over iff it strips to nothing or to a '#' comment |
| Imports.SchemeLineImports | fir-proxy/main.py:506-510 | "scheme://address" with a bucket scheme in any case imports as the lower-case scheme and the address |
| Imports.CommaLineImports | fir-proxy/main.py:511-514 | "protocol,address" with a recognised protocol imports as its bucket and the address |
| Imports.UnknownSchemeSkipped | fir-proxy/main.py:506-517 | A line with an unrecognised scheme keeps the whole line as the address and is logged as invalid |
| Imports.UnknownSchemeWhole | fir-proxy/main.py:505-509 | An unrecognised scheme leaves ("http", whole line), which the address pattern refuses |
| Imports.ExportRoundTrip | fir-proxy/main.py:662-664 | The `.txt` export line of an IPv4:port proxy of a bucket protocol imports back as the same protocol and address |
| Imports.ImportedReExports | fir-proxy/main.py:501-517 | Whatever a line imports as, its export line imports as the same entry |
| Imports.AddressFull | fir-proxy/main.py:515 | A written-out address passes the whole-string pattern, and the reverse holds for text not ending in a newline |
| Imports.ImportText | fir-proxy/main.py:501-517 | The loop fills exactly the buckets of the parsed lines, in file order, and logs exactly the invalid lines |
| Imports.KeptMembers | fir-proxy/main.py:501-517 | An address is in a bucket iff some line imports as it under that protocol |
| Imports.LinesAccounted | fir-proxy/main.py:501-517 | Every line is exactly one of kept, logged or passed over |
| Imports.ImportOutcome | fir-proxy/main.py:518-522 | Validation starts iff some entry was imported, with the buckets unchanged |
| Imports.JsonEntry | fir-proxy/main.py:492-499 | A JSON item is kept only under a bucket protocol |
| Imports.JsonKept | fir-proxy/main.py:490-499 | A JSON list fills at most one address per item |
| Imports.JsonKeptMembers | fir-proxy/main.py:490-499 | An address is in a bucket iff some item of the list gives it under that protocol |
| Imports.JsonUrlEntry | fir-proxy/main.py:492-499 | A url "scheme://address" with a recognised lower-case scheme gives that scheme's bucket (https as http) and the address |
| Imports.JsonAddressEntry | fir-proxy/main.py:492-499 | An item without a url gives "ip:port" under its lower-cased declared protocol ("http" when absent), kept iff that protocol is recognised |
| Imports.JsonItems | fir-proxy/main.py:490-492 | The elements read as items, one each in order, unless some element cannot be read |
| Imports.JsonImport | fir-proxy/main.py:487-526 | An element that raises makes the whole JSON import fail with nothing imported; otherwise each bucket holds what the items give under it |
| Imports.UpperSchemeOnlyInText | fir-proxy/main.py:492-510 | An upper-case bucket scheme is accepted in a text file and dropped in a JSON url |
| Imports.UpperSchemeDropped | fir-proxy/main.py:494-499 | A JSON url whose scheme is not already lower case is dropped |
| App.FilterShown | fir-proxy/main.py:228-237 | The filtering loop keeps exactly the records of the selected region (or every region) that pass the quality test, in order |
| App.ListedIsFilteredPool | fir-proxy/main.py:226-237 | The list holds exactly the pooled records that pass the filter, each as often as pooled, highest score first |
| App.ListedAtTwoSeconds | fir-proxy/main.py:234 | In high-quality mode a 2.0 s proxy is listed although the premium views leave it out |
| App.AcceptedAddresses | fir-proxy/main.py:262-278 | The addresses pooled from a stream are its working addresses that had not been shown |
| App.AcceptedFrom | fir-proxy/main.py:262-278 | Every pooled result is a scored working result of the stream for an address not shown before |
| App.AcceptedDistinct | fir-proxy/main.py:264-267 | No address is pooled twice from a stream |
| App.ReplayAddsNothing | fir-proxy/main.py:264-265 | Receiving the same results again adds nothing |
| App.BatchOfRun | fir-proxy/main.py:256-258 | For a validation run's stream, every result before the one end marker is consumed |
| App.FindRecord | fir-proxy/main.py:585-588 | The generator finds the first record with the address, or none |
| App.RevalidatedAddresses | fir-proxy/main.py:585-616 | Revalidation never adds an address and keeps addresses unique; a failed result removes its own address |
| App.RevalidatedInPlace | fir-proxy/main.py:592-601 | A working result keeps the record's position and every other record, with the score recomputed |
| App.PositiveIntervalOf | fir-proxy/main.py:726-731 | Any positive whole number of seconds is accepted, and the timer is that many thousand milliseconds |
| App.IntervalRefusals | fir-proxy/main.py:726-731 | Zero and blank text are refused |
| App.RegionBox.constructor | fir-proxy/main.py:94-97 | A new menu is empty, with the all-regions entry selected |
| App.RegionBox.Rebuild | fir-proxy/main.py:331-357 | The menu is rebuilt from the counts (just the all-regions entry when there are none); the selection moves to the first entry starting with the region it named before, or to the all-regions entry when there are no counts, no region was named or no entry starts with it |
| App.ProxyApp.constructor | fir-proxy/main.py:26-55 | A new window has an empty pool, nothing shown, the server and rotation stopped, and interval "10" |
| App.ProxyApp.ProcessResult | fir-proxy/main.py:253-314 | The end marker ends the task; a working result for an unseen address is shown, scored and pooled; anything else changes no pool; the row is listed iff it passes the current filter |
| App.ProxyApp.Include | fir-proxy/main.py:267-278 | The address becomes shown and the scored result is appended to the pool |
| App.ProxyApp.ConsumeResults | fir-proxy/main.py:253-314 | Over a whole stream, the pool gains exactly the accepted results, in order, and their addresses become shown |
| App.ProxyApp.ProcessRevalidateResult | fir-proxy/main.py:575-630 | The end marker ends the task; otherwise the pool becomes Revalidated, and a removed address is no longer shown |
| App.ProxyApp.Merge | fir-proxy/main.py:592-601 | The scored result overwrites the pooled record in place |
| App.ProxyApp.Drop | fir-proxy/main.py:610-616 | The record leaves the pool and the shown set |
| App.ProxyApp.DeleteSelected | fir-proxy/main.py:403-418 | The address leaves the shown set and the pool (where pooled); an emptied pool stops the server and the rotation |
| App.ProxyApp.ClearAll | fir-proxy/main.py:450-459 | Refused while a task runs or unconfirmed; otherwise the pool and the shown set are emptied |
| App.ProxyApp.RotateProxy | fir-proxy/main.py:420-440 | Draws from the view that the selected region and the quality box name: an empty view clears the current proxy and leaves the cursors; otherwise the entry after that view's cursor, wrapped, becomes current, and only that cursor moves to it; the pool is unchanged |
| App.ProxyApp.StopServer | fir-proxy/main.py:701-706 | Stops the server and changes nothing else |
| App.ProxyApp.ToggleServer | fir-proxy/main.py:701-713 | A running server stops; a stopped one starts iff the pool is non-empty, picking a current proxy first if none is set |
| App.ProxyApp.StopAutoRotate | fir-proxy/main.py:719-724 | Stops the rotation and changes nothing else |
| App.ProxyApp.ToggleAutoRotate | fir-proxy/main.py:719-735 | A running rotation stops; a stopped one starts iff the interval is a positive integer, scheduling int(interval)·1000 ms |
| App.ProxyApp.PerformAutoRotation | fir-proxy/main.py:737-744 | While rotating, it rotates and reschedules after int(interval)·1000 ms; an interval that is not an integer stops the rotation |
| App.ProxyApp.UpdateRegionsAndCounts | fir-proxy/main.py:317-373 | The menu is rebuilt from the pool's counts and the selection moves as in RegionBox.Rebuild, to the first entry starting with the previously named region or else the all-regions entry; an empty pool stops the server and the rotation, while a non-empty pool changes neither |
| App.ProxyApp.ListedProxies | fir-proxy/main.py:226-237 | The displayed list is Listed for the current selection and quality box |
| App.ProxyApp.RefreshTreeview | fir-proxy/main.py:213-250 | The menu is rebuilt first, and the list follows the selection it leaves |
| App.ProxyApp.SelectRegion | fir-proxy/main.py:213-250 | Choosing a menu entry refreshes the list for it |
| Sorting.SortDescIsDescending | fir-proxy/main.py:226 | The descending sort leaves keys in non-increasing order |
| Sorting.SortDescIsStable | fir-proxy/main.py:331 | Elements with equal keys keep their input order |
| Sorting.InsertDescPerm | fir-proxy/main.py:331 | Each insertion step adds exactly its element, so the sort is a permutation |
| Sorting.SortedListing | fir-proxy/hq.py:81 | sorted(list(set)) lists every element once, in increasing code-point order |
| Sorting.ListingUnique | fir-proxy/hq.py:81 | Two increasing listings of the same elements are equal |
| Patterns.IpPortFullIff | fir-proxy/main.py:515 | The whole-string address pattern holds iff the text is "a.b.c.d:port" with 1-3 digit octets and a port, optionally followed by one newline |
| Patterns.FoundAreMatches | fir-proxy/modules/fetcher.py:143 | Every string findall returns is itself a complete match of the 2-5 digit port pattern |
| Fetcher.IpPortPrefixIff | fir-proxy/modules/fetcher.py:74 | The line filter holds iff some prefix of the line is an address with a port |
| Fetcher.PrefixOnly | fir-proxy/modules/fetcher.py:74 | Anything may follow the port, and octets above 255 pass |
| Fetcher.ItemAddresses | fir-proxy/modules/fetcher.py:69 | A `data` list yields one "ip:port" per item, in order, and raises if any item lacks them |
| Fetcher.CleanedMatchingMembers | fir-proxy/modules/fetcher.py:74 | A line is kept, cleaned, iff its cleaned text passes the filter |
| Fetcher.AddressLinesMembers | fir-proxy/modules/fetcher.py:74 | A line is kept, stripped, iff its stripped text begins with an address and a port |
| Fetcher.ParseProxiesFromText | fir-proxy/modules/fetcher.py:64-74 | A `data` list gives its items' addresses in order; other JSON and non-JSON text give the address lines; a raising lookup escapes |
| Fetcher.FetchFromUrl | fir-proxy/modules/fetcher.py:76-91 | A failed request, or a page that yields nothing, gives None; a parse that raises escapes; otherwise the parsed non-empty list |
| Fetcher.Scrape66ip | fir-proxy/modules/fetcher.py:136-152 | Returns the addresses with a 2-5 digit port, each a complete match, and None iff the request failed or there are none |
| Fetcher.FatezeroScanFails | fir-proxy/modules/fetcher.py:163-169 | The scan fails iff some line mentioning `host` fails to decode |
| Fetcher.FatezeroScanKeeps | fir-proxy/modules/fetcher.py:163-169 | A successful scan keeps exactly the http and https entries of the lines that mention `host` |
| Fetcher.ScrapeFatezero | fir-proxy/modules/fetcher.py:154-179 | The line loop computes the fatezero result: None on a failed request, a bad line, or nothing kept |
| Fetcher.FatezeroBadPrefix | fir-proxy/modules/fetcher.py:163-165 | A bad line in a prefix fails the whole scan |
| Fetcher.GatheredMembers | fir-proxy/modules/fetcher.py:197-205 | An address is in a bucket iff some task of that bucket (https into http) returned it in a non-empty list |
| Fetcher.GatheredOrderFree | fir-proxy/modules/fetcher.py:197 | The buckets do not depend on the order in which tasks complete |
| Fetcher.FetchAll | fir-proxy/modules/fetcher.py:182-215 | The merge loop fills exactly the http, socks4 and socks5 buckets |
| Fetcher.IgnoredTask | fir-proxy/modules/fetcher.py:199-207 | A task that raised or returned None or an empty list changes no bucket |
| Hq.CleanProxyLine | fir-proxy/hq.py:7-25 | Gives a result iff both colon fields of the text after the last "//" and the last "@", cut to two fields, are non-empty; a result has one colon, no "//" or "@", and is stripped |
| Hq.CleanFixedPoint | fir-proxy/hq.py:7-25 | A clean address with both fields comes back unchanged |
| Hq.CleanIdempotent | fir-proxy/hq.py:7-25 | Cleaning a cleaned line changes nothing |
| Hq.CleanDropsExtraFields | fir-proxy/hq.py:19-21 | Fields after the port are cut off |
| Hq.CleanDropsCredentials | fir-proxy/hq.py:15-16 | Credentials before an "@" are cut off |
| Hq.DeduceProtocolCases | fir-proxy/hq.py:29-43 | "socks" in any case gives socks5, else "http" gives http, else the default |
| Hq.SocksFourIsFive | fir-proxy/hq.py:36-39 | A line marked "socks4" is SOCKS5: the socks4 branch is never reached |
| Hq.NeverSocksFour | fir-proxy/hq.py:36-43 | The result is socks4 only when the default is |
| Hq.DeduceIgnoresCase | fir-proxy/hq.py:35 | The inference ignores letter case |
| Hq.Cleaned | fir-proxy/hq.py:121-135 | Text lines are cleaned by clean_proxy_line; a JSON line gives "host:port" iff it decodes and has both fields |
| Hq.PlaceShape | fir-proxy/hq.py:113-141 | Every placed proxy carries its list's scheme, followed by a clean address for a text source |
| Hq.SocksFourLine | fir-proxy/hq.py:118-141 | A cleanable line saying "socks4" joins the SOCKS5 list, whatever the default |
| Hq.SocksLine | fir-proxy/hq.py:118-141 | A cleanable line saying "socks" joins the SOCKS5 list |
| Hq.OtherDefaultDropped | fir-proxy/hq.py:138-143 | An unmarked line of a source whose default is neither http nor socks5 is dropped |
| Hq.ListedMembers | fir-proxy/hq.py:113-141 | A proxy is in a list iff some line is placed there as it |
| Hq.AddLines | fir-proxy/hq.py:113-143 | The line loop adds exactly the listed proxies to each set |
| Hq.AddBatch | fir-proxy/hq.py:106-147 | One source grows each set by its listed proxies, and the printed counts are the numbers new to each set |
| Hq.ReplayAddsNothing | fir-proxy/hq.py:145-146 | The counts printed for a source are zero exactly when every proxy it lists was already in that set, so a page read again reports 0 and 0 |
| Hq.PageLines | fir-proxy/hq.py:102-110 | A fetched page gives its stripped lines; a failed request gives none, so the source is skipped |
| Hq.CollectedMembers | fir-proxy/hq.py:100-150 | A proxy is collected iff some fetched source lists it |
| Hq.SaveProxies | fir-proxy/hq.py:70-88 | An empty set writes nothing; otherwise each proxy once, sorted |
| Hq.CollectAll | fir-proxy/hq.py:100-152 | The source loop collects exactly what the fetched sources list, and records for each fetched source, in order, how many of its proxies earlier sources had not listed |
| Hq.FetchAndSave | fir-proxy/hq.py:91-157 | http.txt and git.txt are each absent iff their list is empty, and otherwise list it sorted; the printed counts are those of the source loop |
| Xdl.JsonKept | fir-proxy/xdl.py:84-94 | A JSON record is kept iff its line is not blank, decodes, and has a host and a port |
| Xdl.JsonClassified | fir-proxy/xdl.py:92-100 | A kept record goes to the HTTP set iff its lower-cased type (default "http") mentions http; otherwise it goes to the other set with that type as scheme |
| Xdl.MissingTypeIsHttp | fir-proxy/xdl.py:92 | A record without a type is an HTTP proxy |
| Xdl.HttpKindIsHttp | fir-proxy/xdl.py:97-98 | A type mentioning http files the record as http://host:port |
| Xdl.HttpsIsHttp | fir-proxy/xdl.py:97 | A type "https", in any case, is filed as HTTP |
| Xdl.TextFiled | fir-proxy/xdl.py:104-113 | A text line is filed iff it is not blank, as its stripped text behind the source's scheme |
| Xdl.FiledMembers | fir-proxy/xdl.py:84-113 | A proxy is filed iff some line places it there |
| Xdl.ReadSource | fir-proxy/xdl.py:81-116 | One source grows both sets by what it files, and the count is their joint growth |
| Xdl.ReplayAddsNothing | fir-proxy/xdl.py:115 | A source whose proxies are all known reports zero new |
| Xdl.GatheredMembers | fir-proxy/xdl.py:72-119 | A proxy is gathered iff some fetched source files it |
| Xdl.GatherAll | fir-proxy/xdl.py:72-121 | The source loop gathers exactly what the fetched sources file |
| Xdl.FetchAndSave | fir-proxy/xdl.py:62-133 | Each file is absent iff its set is empty, and otherwise lists the set sorted |

## Left out

- The Tk and ttkbootstrap widgets, the Treeview rows and their formatting (`:.1f`, ms and Mbps text), the log queue and every log or print message: presentation only.
- Threads, the thread pools, the rotator's lock and the completion order of results: each method is atomic, and a run's results are one stream in some order, followed by its end marker.
- Sockets, `select`, the listener accept loops, `_forward_data` and the `socks` library connection: I/O and a foreign library. Opening the upstream connection is the oracle `connects`.
- All HTTP requests, the eight geolocation services and the `curl` subprocess: each answer is an oracle value, or `None` where it raised.
- Timing: the latency and download duration come in as probe values, and speed is a `real`. Floating-point rounding is not modelled.
- `json.loads`, `urlparse` and BeautifulSoup: the model takes the decoded value as a parameter. `_scrape_free_proxy_list` and `_scrape_kxdaili` are not modelled, since they only walk HTML tables.
- The source URLs and names of the hq.py and xdl.py tables: only each source's parser and protocol are kept.
- File dialogs, file reading and writing, and the CSV and JSON export formats: a file is its sequence of lines, and the `.txt` export line is modelled.
- `sort_treeview_column`, `copy_to_clipboard`, `_use_selected_proxy`, `finalize_validation`, `finalize_revalidation`, `run_validation_task` and `revalidate_all`: these only reset widgets or start a thread around the modelled operations.
- `_process_builtin_result` (fir-proxy/main.py:174-210): the built-in pool path is not modelled separately. Its score formula is `Records.Scored`.
- Set iteration order: `list(set)` and a dict's `values()` become sets or order-free statements. The saved files are sorted, so their order is exact.
- Rotator.RegionOf: `add_proxy` defaults a missing location to "Unknown". Every modelled result carries a location (the checker writes "N/A" or a found one), so the default is not modelled.
- Xdl.JsonClassified: a JSON line that decodes to something that is not an object, or with a `type` that is not a string, raises in the source and aborts the run. The model treats that line as malformed.
- Hq.Cleaned: a JSON line that decodes to a non-object raises in the source and aborts the run. The model treats that line as malformed.
- Text.Lower and Patterns: case mapping, `\w`, `\d` and `\s` are read over ASCII, plus Python's whitespace characters for `strip`. Other Unicode letters and digits are not modelled.
- Server.HttpSession: the host and port of a forwarded request come from a `urlparse` oracle, and the port defaults to 80.
- Server.Take: a read of n bytes is modelled as taking n bytes, or all that remain. A TCP read may return fewer bytes than are still coming, and such short reads are not modelled.
- Imports.JsonImport: which JSON elements raise is an input to the model (`Unreadable`), not derived from a decoded JSON value. A file that is not valid JSON is part of the file reading left out above.
