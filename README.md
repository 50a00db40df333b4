# Visit planner: a verified model of its store attribution and screen logic

The application is a React web app for field consultants. The consultant logs in with a
password from a semicolon-separated file. They see their visit schedule grouped by date. They
ask a manager (André) over WhatsApp to change a visit's store ("JP") or its time, either one at a
time or in bulk. A manager dashboard reads the request log sheet. It attributes every request to
a client by looking the request's store up in a store-to-client directory built from a base
spreadsheet. When the store is not a directory key, a token-scoring fuzzy matcher picks one.
The dashboard then shows filtered, counted and paginated statistics.

This project models that logic in Dafny and proves properties of the model:

| module | file | what it models |
|---|---|---|
| `Wrappers` | wrappers.dfy | `Option`, for `null`/`undefined` |
| `Text` | text.dfy | `trim`, `toUpperCase`/`toLowerCase`, `includes`, `split` on one character, `\|\|` on strings, `String(n)`, `padStart(2, '0')` |
| `Seqs` | seqs.dfy | `filter`, `map` and the concatenations built by `forEach` loops |
| `Rows` | rows.dfy | the tolerant column lookups `getRowValue`, `getVal` (dashboard) and `getValue` (home screen) |
| `Ordered` | ordered.dfy | JavaScript objects as dictionaries: key order of `Object.keys`, counters, `Set`, the descending sort and the top-N slice |
| `Directory` | directory.dfy | the store-to-client directory: normalised keys and values, last write wins, first-write key order |
| `Matcher` | matcher.dfy | `tokenize`, alias injection, the scores, the short-circuit, the tie rule and the threshold of `findMatch` |
| `Dashboard` | dashboard.dfy | log normalisation, the consultant/type/client filters, attribution, the statistics pass, the status update, the pending-first order and pagination |
| `Scenarios`, `Walkthrough` | scenarios.dfy, walkthrough.dfy | worked examples on concrete stores and directories, proved from the definitions |
| `Storage` | storage.dfy | `localStorage` as a string map and the keys of pending requests |
| `Sorting` | sorting.dfy | the default string `sort()` |
| `Home` | home.dfy | the home screen's map, visit filter, grouping by date, saved inclusions, pending flags and store list |
| `WhatsApp` | whatsapp.dfy | number normalisation and the link of `createWhatsAppLink` |
| `MassEdit` | massedit.dfy | the mass-edit screen as a class: selection, edits, readiness, the messages and the stored requests |
| `DateCard` | datecard.dfy | one date's card: badge, weekday label, layout choice, shifted end time |
| `App` | app.dfy | the password file, the login and the persisted user, as a class `Session` |

## Matcher scores

The source scores candidates in steps of 0.5. The model doubles every score so it is a natural
number:
- one shared token counts 2;
- the brand boost counts 3 (1.5 in the source);
- the alias boost counts 4 (2 in the source);
- the acceptance threshold is 5 (2.5 in the source).

## Two behaviours of the fuzzy matcher

- **The "perfect match" short-circuit compares counts only.** The search stops as soon as the
  number of key tokens found among the query tokens equals the number of query tokens
  (src/components/AdminDashboard.jsx:203,220). Key tokens count with multiplicity, so a key that
  repeats one query token can pass while another query token is missing
  (`Matcher.PerfectCountsOnly`).
- **`LOJA POLOAR X` goes to `C1`.** Over the directory `LOJA A` → `C1`, `LOJA B STR` → `C2`,
  keys are tokenized without alias injection, so `LOJA B STR` does not hold `UNIAR`.
  `LOJA POLOAR X` scores 2.5 against both `LOJA A` and `LOJA B STR`, and the tie goes to the
  earlier key, `C1` (`Scenarios.PoloarTie`, `Walkthrough.FuzzyTie`).

## Model

| member | source | states |
|---|---|---|
| Rows.FirstFieldSpec | src/components/AdminDashboard.jsx:102-106 | `Object.keys(row).find(...)` yields the first field, in column order, whose header passes the test, and nothing exactly when no header passes |
| Rows.CandidateHitIff | src/components/AdminDashboard.jsx:101-106 | one candidate's turn (exact test, then substring test) yields a value exactly when some header, trimmed and upper-cased, contains the candidate |
| Rows.CandidateValueNone | src/components/AdminDashboard.jsx:100-108 | the lookup falls through to `null` exactly when no header contains any of the candidates |
| Rows.ExactBeforePartial | src/components/AdminDashboard.jsx:100-106 | candidates are tried in order and the exact test wins over an earlier header that merely contains the candidate |
| Rows.GetRowValue | src/components/AdminDashboard.jsx:98-109 | the `for` loop of `getRowValue` returns the candidate lookup with the candidates upper-cased, `null` when nothing matches |
| Rows.GetValue | src/components/Home.jsx:36-46 | the loop of `getValue` returns the candidate lookup with candidates compared as given, `''` when nothing matches |
| Rows.GetVal | src/components/AdminDashboard.jsx:62-69 | the loop of `getVal` returns the value of the first key, in candidate order, equal to a header ignoring case, `''` when none is |
| Ordered.Put | src/components/AdminDashboard.jsx:116 | `mapping[k] = v`: the new value is stored, an existing key keeps its place and a new key goes last |
| Ordered.IncTotal | src/components/AdminDashboard.jsx:254 | `count[k] = (count[k] \|\| 0) + 1` adds exactly one to the sum of the counts |
| Ordered.TallyTotal | src/components/AdminDashboard.jsx:252-257 | the counts a `forEach` of increments leaves sum to the number of items counted |
| Ordered.TallyCounts | src/components/AdminDashboard.jsx:252-257 | a name is a key of the counter exactly when it was counted, and its count is its number of occurrences |
| Ordered.TallyKeys | src/components/AdminDashboard.jsx:281 | `Object.keys` of a counter lists the names in order of first increment |
| Ordered.Dedup | src/components/AdminDashboard.jsx:279 | `Array.from(new Set(xs))` holds no repetition and exactly the items of `xs` |
| Ordered.DedupSnoc | src/components/AdminDashboard.jsx:270 | `Set.add` leaves the set as it was for a present item and appends an absent one |
| Ordered.Pairs | src/components/AdminDashboard.jsx:286-289 | one `{name, value}` pair per key of the counter, in key order, with that key's count |
| Ordered.PairsSum | src/components/AdminDashboard.jsx:286-289 | the values of a breakdown sum to the counter's total |
| Ordered.SortDesc | src/components/AdminDashboard.jsx:284 | the stable sort by descending value yields a descending permutation of its input |
| Ordered.Take | src/components/AdminDashboard.jsx:279 | `slice(0, n)` is the prefix of length min(n, length) |
| Ordered.TopIsTop | src/components/AdminDashboard.jsx:281-284 | sort-then-slice keeps min(n, length) entries, in descending order, drawn from the input, none of them outranked by an entry left out |
| Directory.Entry | src/components/AdminDashboard.jsx:114-116 | a row writes an entry exactly when both lookups are truthy, and the entry is the trimmed, upper-cased store with the trimmed client |
| Directory.KeysInOrder | src/components/AdminDashboard.jsx:111-118 | the directory's keys are the stores written, in order of first write |
| Directory.WrittenKeys | src/components/AdminDashboard.jsx:111-118 | a store is a key exactly when some row writes it |
| Directory.SkipEntry | src/components/AdminDashboard.jsx:114 | a row that does not write a store leaves that store's presence and client as they were |
| Directory.LastWriter | src/components/AdminDashboard.jsx:116 | every key has a last row writing it, and that row's client is the key's value |
| Directory.LastWriteWins | src/components/AdminDashboard.jsx:111-118 | a store is a key exactly when some row writes it, and its client is that of the last row writing it (also `storeClientMap`, src/components/Home.jsx:48-54) |
| Directory.EntryNormal | src/components/AdminDashboard.jsx:115-116 | an entry's store is already trimmed and upper-cased and its client trimmed |
| Directory.BuildNormal | src/components/AdminDashboard.jsx:111-118 | every key of the built directory is trimmed and upper-cased and every client trimmed |
| Matcher.CleanChar | src/components/AdminDashboard.jsx:173-175 | one character after upper-casing, accent removal and punctuation replacement is in `[A-Z0-9]` or a space |
| Matcher.Clean | src/components/AdminDashboard.jsx:173-175 | the cleaned string holds only `[A-Z0-9]` and spaces |
| Matcher.KeepLong | src/components/AdminDashboard.jsx:177 | `filter(t => t.length > 1)` keeps only fields of two characters or more, drawn from its input |
| Matcher.Tokenize | src/components/AdminDashboard.jsx:171-178 | `[]` for the empty string; every token is at least two characters of `[A-Z0-9]` |
| Matcher.CleanConcat | src/components/AdminDashboard.jsx:173-175 | cleaning works character by character: it distributes over concatenation |
| Matcher.KeepLongConcat | src/components/AdminDashboard.jsx:177 | the length filter distributes over concatenation |
| Matcher.TokenizeConcat | src/components/AdminDashboard.jsx:171-178 | tokens come left to right: the tokens of `a + " " + b` are those of `a`, then those of `b` |
| Matcher.CleanTokenChars | src/components/AdminDashboard.jsx:173-175 | text of `[A-Z0-9]` and spaces is left unchanged by cleaning |
| Matcher.KeepLongAllLong | src/components/AdminDashboard.jsx:177 | the length filter keeps a list of long fields whole |
| Matcher.TokenizeWords | src/components/AdminDashboard.jsx:171-178 | runs of `[A-Z0-9]` joined by single spaces tokenize to the runs of two characters or more |
| Matcher.TokenizeJoin | src/components/AdminDashboard.jsx:171-178 | tokens joined by single spaces tokenize back to themselves |
| Matcher.TokenizeWord | src/components/AdminDashboard.jsx:171-178 | a single token tokenizes to itself |
| Matcher.TokenizeIdempotent | src/components/AdminDashboard.jsx:171-178 | tokenizing the re-joined tokens gives the same tokens |
| Matcher.AliasesAppendOnly | src/components/AdminDashboard.jsx:186-197 | the plain tokens come first, then `UNIAR` exactly when the upper-cased text contains `POLOAR` or `STR`, then `TRAVENIDAESSA` and `WEBCONTINENTAL` exactly when it contains `WEBCONTINENTAL`, and nothing else |
| Matcher.BuildIndex | src/components/AdminDashboard.jsx:180-182 | one entry per directory key, in key order, holding the key and its tokens |
| Matcher.Overlap | src/components/AdminDashboard.jsx:203 | the intersection counts key tokens with multiplicity, so never more than the key has |
| Matcher.OverlapZero | src/components/AdminDashboard.jsx:203 | the intersection is empty exactly when no key token occurs among the query tokens |
| Matcher.OverlapPositive | src/components/AdminDashboard.jsx:203 | a token shared by query and key makes the intersection non-empty |
| Matcher.FirstPerfect | src/components/AdminDashboard.jsx:219-222 | the index of the first key passing the count test, and none only when no key passes |
| Matcher.Best | src/components/AdminDashboard.jsx:214-217 | the best index, when there is one, is an index of the key list |
| Matcher.BestIsBest | src/components/AdminDashboard.jsx:199-217 | `maxScore` is the largest score (0 when none is positive) and `bestMatch` the earliest key reaching it |
| Matcher.BestSnoc | src/components/AdminDashboard.jsx:214-217 | one more key replaces the best so far only with a strictly greater score |
| Matcher.FirstPerfectAt | src/components/AdminDashboard.jsx:220-222 | the first key to pass the count test is the one returned by the short-circuit |
| Matcher.NoPerfectMatch | src/components/AdminDashboard.jsx:225-226 | without a short-circuit the result is the best key when its score reaches 2.5, else `null` |
| Matcher.MatchIn | src/components/AdminDashboard.jsx:199-226 | a key returned by the scan is one of the keys of the index |
| Matcher.MatchStore | src/components/AdminDashboard.jsx:184-188 | `null` for the empty string or text without tokens; otherwise any key returned is a key of the index |
| Matcher.FindMatch | src/components/AdminDashboard.jsx:184-227 | the method with the alias pushes and the early return computes the matcher's value |
| Matcher.ScanKeys | src/components/AdminDashboard.jsx:199-226 | the scoring loop returns the first perfect key, else the best key when its score reaches the threshold, else `null` |
| Matcher.ShortCircuit | src/components/AdminDashboard.jsx:203-222 | the first key whose intersection count equals the number of query tokens is returned, whatever keys follow it |
| Matcher.BestWins | src/components/AdminDashboard.jsx:204-225 | without a short-circuit a key is returned exactly when some key scores at least 2.5, and it is the earliest key with the largest score |
| Matcher.BrandGuarantee | src/components/AdminDashboard.jsx:207-225 | a key holding the first query token scores at least 2.5, so some key is then returned |
| Matcher.TokenizeEmpty | src/components/AdminDashboard.jsx:172 | a string with tokens is not empty |
| Matcher.MatchIsKey | src/components/AdminDashboard.jsx:236-237 | over the index of the directory, a returned key is a directory key and never empty, so `storeToClientMap[matchedKey]` is defined |
| Matcher.PerfectCountsOnly | src/components/AdminDashboard.jsx:220 | the count test passes a key that repeats one query token although another query token is missing, and fails a query that repeats a token |
| Matcher.CleanUpper | src/components/AdminDashboard.jsx:173 | cleaning upper-cases first, so upper-casing before it changes nothing |
| Matcher.MatchIgnoresCase | src/components/AdminDashboard.jsx:184-197 | upper-casing the raw text before matching changes neither tokens nor aliases, hence not the result |
| Dashboard.Normalize | src/components/AdminDashboard.jsx:73-86 | a record's id is its array index plus two, the sheet row number |
| Dashboard.NormalizeLogs | src/components/AdminDashboard.jsx:73-86 | one record per row, numbered by sheet row, so ids are distinct and increasing |
| Dashboard.BuildDirectory | src/components/AdminDashboard.jsx:111-118 | the `forEach` of `loadStoreData` builds the directory of the rows' entries, looked up under `LOJA`/`NOME PDV`/`NOME_PDV` and `CLIENTE`/`CLIENT` |
| Dashboard.ConsultantFilter | src/components/AdminDashboard.jsx:157-161 | no selection keeps every record; otherwise a record is kept exactly when its consultant equals the selection ignoring case |
| Dashboard.TypeFilter | src/components/AdminDashboard.jsx:164-168 | no selection keeps every record; otherwise a record is kept exactly when its type equals the selection ignoring case |
| Dashboard.FuzzyClient | src/components/AdminDashboard.jsx:236-237 | the fuzzy result is `'N/A'` or the client of a directory entry, and `'N/A'` when no key matches |
| Dashboard.ClientOf | src/components/AdminDashboard.jsx:232-240 | a truthy exact lookup wins; else a non-empty store goes to the fuzzy matcher; an empty store is `'N/A'` |
| Dashboard.ClientOfRange | src/components/AdminDashboard.jsx:232-240 | every attribution is `'N/A'` or the client of some directory entry |
| Dashboard.ClientFilter | src/components/AdminDashboard.jsx:230-243 | no selection keeps every record; otherwise a record is kept exactly when it is attributed to the selected client |
| Dashboard.ConsultantNames | src/components/AdminDashboard.jsx:253 | each record is counted under its consultant, or `Desconhecido` when that is empty |
| Dashboard.TypeNames | src/components/AdminDashboard.jsx:256 | each record is counted under its type, or `Outros` when that is empty |
| Dashboard.WithStore | src/components/AdminDashboard.jsx:260-261 | the client breakdown counts exactly the records whose store string is not empty |
| Dashboard.ClientNames | src/components/AdminDashboard.jsx:260-275 | one client name per record with a store |
| Dashboard.Stores | src/components/AdminDashboard.jsx:260 | each record's store string, in order |
| Dashboard.NamesSnoc | src/components/AdminDashboard.jsx:252-275 | one more record adds its consultant, its type and, when it has a store, its client |
| Dashboard.MissesSnoc | src/components/AdminDashboard.jsx:269-271 | one more record adds its store to the misses exactly when the fuzzy fallback fails on it |
| Dashboard.AttributeStore | src/components/AdminDashboard.jsx:261-272 | one record's lookup gives the attributed client and says whether the store joins the unmatched set |
| Dashboard.CountItem | src/components/AdminDashboard.jsx:252-276 | the `forEach` callback on one record extends the three counters and the unmatched set by that record |
| Dashboard.ComputeStats | src/components/AdminDashboard.jsx:247-302 | the statistics are the total, the top five consultants, all types, the top five clients and the first fifty unmatched stores of the filtered records |
| Dashboard.StatsTotals | src/components/AdminDashboard.jsx:252-276 | consultant and type counts each sum to the number of records, client counts to the records with a store |
| Dashboard.TypeBreakdown | src/components/AdminDashboard.jsx:286-289 | the type breakdown lists each type that occurs once, in order of first occurrence, with its number of records |
| Dashboard.TopFive | src/components/AdminDashboard.jsx:281-294 | both top-five breakdowns hold at most five entries, in descending order, none outranked by one left out |
| Dashboard.ClientNamesRange | src/components/AdminDashboard.jsx:262-274 | every client counted is `'N/A'` or the client of a directory entry |
| Dashboard.MissesIff | src/components/AdminDashboard.jsx:265-271 | a store string is a miss exactly when some record has it and both the exact lookup and the fuzzy fallback fail on it |
| Dashboard.UnmatchedList | src/components/AdminDashboard.jsx:270-279 | at most fifty distinct fuzzy-miss stores of the records, and all of them when there are at most fifty |
| Dashboard.MarkDone | src/components/AdminDashboard.jsx:353-355 | the records with the given id take status `Feito`, every other record is unchanged |
| Dashboard.HandleStatusUpdate | src/components/AdminDashboard.jsx:346-359 | the update happens exactly for a master user, a status other than `Feito` and a confirmed dialog; then the row is marked and sent, otherwise nothing changes |
| Dashboard.MarkDoneIdempotent | src/components/AdminDashboard.jsx:353-355 | marking a row twice is marking it once |
| Dashboard.MarkDoneOneRow | src/components/AdminDashboard.jsx:353-355 | on normalised logs the update touches exactly the row it names |
| Dashboard.ProcessedOrder | src/components/AdminDashboard.jsx:42-47 | no pending record comes after a completed one; the pending-only view holds exactly the pending records, as often as before; otherwise every record is kept, as often as before |
| Dashboard.TotalPages | src/components/AdminDashboard.jsx:51 | `Math.ceil(n / 20)`: the smallest page count covering `n` records |
| Dashboard.Slice | src/components/AdminDashboard.jsx:52-55 | `slice` with non-negative bounds clamps both to the length |
| Dashboard.Page | src/components/AdminDashboard.jsx:52-55 | a page holds at most twenty records, and a page past the last is empty |
| Dashboard.PagesPrefix | src/components/AdminDashboard.jsx:52-55 | the first n pages laid end to end are the first min(20n, length) records |
| Dashboard.PagesCover | src/components/AdminDashboard.jsx:51-55 | all pages put together are the whole list, in order |
| Dashboard.PrevPage | src/components/AdminDashboard.jsx:686 | the previous-page button never goes below page 1 and otherwise steps back one page |
| Dashboard.NextPage | src/components/AdminDashboard.jsx:693 | the next-page button never goes past the last page and otherwise steps forward one page |
| Dashboard.PagingStaysInRange | src/components/AdminDashboard.jsx:682-693 | from a page in range, both buttons stay in range |
| Scenarios.MatchVia | src/components/AdminDashboard.jsx:184-227 | past its two `null` exits the matcher's answer depends only on the query tokens and the index |
| Scenarios.WebKeyTokens | src/components/AdminDashboard.jsx:180-182 | the key `LOJA WEBCONTINENTAL 01` is indexed with the tokens `LOJA`, `WEBCONTINENTAL`, `01` |
| Scenarios.JoinedQuery | src/components/AdminDashboard.jsx:186-197 | `WEBCONTINENTAL SHOP` is queried with its two tokens followed by `TRAVENIDAESSA` and `WEBCONTINENTAL` |
| Scenarios.WebContinentalAlias | src/components/AdminDashboard.jsx:194-225 | the brand written as one word triggers the alias tokens and reaches the key `LOJA WEBCONTINENTAL 01` |
| Scenarios.SplitQuery | src/components/AdminDashboard.jsx:186-197 | `WEB CONTINENTAL UM` triggers no alias and is queried with its three tokens |
| Scenarios.WebContinentalSplit | src/components/AdminDashboard.jsx:191-226 | the brand written as two words shares no token with the key and is not matched |
| Scenarios.TwoKeys | src/components/AdminDashboard.jsx:214-225 | over two keys without a perfect one, the strictly better key wins when it reaches 2.5, and a tie goes to the first key |
| Scenarios.PoloarQuery | src/components/AdminDashboard.jsx:191-193 | `LOJA POLOAR X` is queried with `LOJA`, `POLOAR` and the alias `UNIAR` (`X` is too short) |
| Scenarios.PoloarTie | src/components/AdminDashboard.jsx:199-225 | `LOJA POLOAR X` scores 2.5 against both `LOJA A` and `LOJA B STR` (neither key holds `UNIAR`), and the earlier key wins |
| Scenarios.UnknownMiss | src/components/AdminDashboard.jsx:225-226 | a store sharing no token with any key is not matched |
| Walkthrough.TwoEntries | src/components/AdminDashboard.jsx:111-118 | two rows writing different stores give a directory of those two keys in row order |
| Walkthrough.FuzzyVia | src/components/AdminDashboard.jsx:262-271 | a store that is no key and that the matcher maps to a key is attributed to that key's client, and is a miss only if that client is `'N/A'` |
| Walkthrough.MissVia | src/components/AdminDashboard.jsx:262-271 | a store that is no key and that the matcher misses is attributed to `'N/A'` and listed as unmatched |
| Walkthrough.SampleShape | src/components/AdminDashboard.jsx:111-118 | the sample rows give the directory `LOJA A` → `C1`, `LOJA B STR` → `C2` |
| Walkthrough.ExactHit | src/components/AdminDashboard.jsx:262 | a store string that is a key is attributed by the exact lookup |
| Walkthrough.FuzzyTie | src/components/AdminDashboard.jsx:262-271 | `LOJA POLOAR X` is attributed to `C1` by the fuzzy tie rule and is not listed as unmatched |
| Walkthrough.NoMatch | src/components/AdminDashboard.jsx:265-271 | `UNKNOWN PLACE` is attributed to `'N/A'` and listed as unmatched |
| Storage.KeysDiffer | src/components/Home.jsx:122-124 | the store-change and time-change keys of any two visits never coincide |
| Sorting.LeqTotal | src/components/Home.jsx:175 | any two strings are ordered one way or the other by the default sort's comparison |
| Sorting.LeqTrans | src/components/Home.jsx:175 | the comparison is transitive |
| Sorting.LeqAntisym | src/components/Home.jsx:175 | two strings each below the other are equal |
| Sorting.Insert | src/components/Home.jsx:175 | inserting into a sorted list keeps it sorted and adds exactly that element |
| Sorting.Sort | src/components/Home.jsx:175 | `sort()` yields an ascending permutation of its input |
| Sorting.SortDistinct | src/components/Home.jsx:175 | sorting distinct names lists each once, in strictly ascending order |
| Home.BuildStoreClientMap | src/components/Home.jsx:48-54 | the `forEach` over the base rows builds the store-to-client map of the rows' `LOJA` and `CLIENTE` values |
| Home.RowEntryWrites | src/components/Home.jsx:49-52 | a row writes a store exactly when it has a store and a client and the store, trimmed and upper-cased, is that key; the value written is the trimmed client |
| Home.StoreClientMapEntry | src/components/Home.jsx:48-54 | a store is in the map exactly when some row writes it; its client is that of the last such row; keys are trimmed and upper-cased and clients trimmed |
| Home.MyVisitsMembers | src/components/Home.jsx:57-61 | the consultant's visits are exactly the rows whose `CONSULTOR`, upper-cased, contains the upper-cased user, each as often as in the schedule |
| Home.ToVisit | src/components/Home.jsx:70-77 | the visit pushed for a row carries the row's date and is not an inclusion |
| Home.VisitsOn | src/components/Home.jsx:65-78 | every visit of a date's list carries that date |
| Home.GroupByDate | src/components/Home.jsx:64-78 | the `forEach` builds the groups of the consultant's visits by date |
| Home.GroupedByDate | src/components/Home.jsx:64-78 | a date has a group exactly when it is non-empty and some visit carries it, and the group holds that date's visits in input order |
| Home.Included | src/components/Home.jsx:88-105 | the visit pushed for an inclusion carries the inherited weekday and the inclusion's date and is marked as an inclusion |
| Home.Added | src/components/Home.jsx:82-107 | every inclusion added to a date carries the weekday it inherits |
| Home.InjectInclusions | src/components/Home.jsx:81-107 | the `forEach` over the saved inclusions computes the injected groups |
| Home.InjectKeys | src/components/Home.jsx:86 | inclusions never create a date: the dates are those of the grouping, in the same order |
| Home.WeekdayKept | src/components/Home.jsx:88 | appending visits with a group's weekday keeps the weekday the group passes on |
| Home.InjectHit | src/components/Home.jsx:83-106 | an inclusion of the user on an existing date appends its visit to that date's group |
| Home.InjectOther | src/components/Home.jsx:83-86 | an inclusion of another consultant or another date leaves a group as it was |
| Home.AddedSnoc | src/components/Home.jsx:82-86 | one more saved inclusion adds its visit exactly when it is the user's and of that date |
| Home.InjectContents | src/components/Home.jsx:81-107 | an existing date's group is its visits followed by the user's inclusions for that date, in saved order, each inheriting the weekday of the group's first visit |
| Home.Flags | src/components/Home.jsx:121-145 | one flagged visit per visit of the date, in order |
| Home.FlagsMeaning | src/components/Home.jsx:121-145 | a flagged visit keeps its fields, is pending exactly when a non-empty entry is stored under either of its request keys, carries a change exactly when the store-change entry parses, and gets a new client exactly when the new store maps to a non-empty client |
| Home.CollectStore | src/components/Home.jsx:159-165 | one base row adds its trimmed store to the set when it is the consultant's |
| Home.ExtractStores | src/components/Home.jsx:157-175 | the two `forEach` passes and the sort compute the list of stores offered |
| Home.BaseStoresMembers | src/components/Home.jsx:159-165 | a store is in the base set exactly when some base row of the consultant names it |
| Home.BaseStoresEmpty | src/components/Home.jsx:168 | the base set is empty exactly when no base row of the consultant names a store |
| Home.AvailableStoresMeaning | src/components/Home.jsx:157-175 | the list offered is strictly ascending and holds the base stores of the consultant, or the stores of the consultant's visits when there are none |
| WhatsApp.CleanNumber | src/utils/whatsapp.js:15 | removing the non-digits never lengthens the number |
| WhatsApp.CleanNumberDigits | src/utils/whatsapp.js:15 | the cleaned number holds exactly the ASCII digits of the number, and a string of digits is its own cleaning |
| WhatsApp.FinalNumber | src/utils/whatsapp.js:16 | the result starts with `55`: the cleaned number itself when it already does, else `55` prepended |
| WhatsApp.FinalDigits | src/utils/whatsapp.js:16 | prepending the country code keeps a string of digits a string of digits |
| WhatsApp.NormalizeIdempotent | src/utils/whatsapp.js:15-16 | a normalised number holds only digits and normalising it again changes nothing |
| WhatsApp.Link | src/utils/whatsapp.js:6-19 | a falsy number gives the contact-picker link; otherwise the link to the normalised number; the text is always encoded |
| WhatsApp.NormalizeDigits | src/utils/whatsapp.js:15-16 | a string of digits not starting with `55` gets `55` prepended |
| WhatsApp.AndreNumber | src/utils/whatsapp.js:2-18 | messages to André go to `5511973562750` |
| MassEdit.SetField | src/components/MassEdit.jsx:45-48 | `{ ...edit, [field]: value }` sets the one field and keeps every other |
| MassEdit.FlagsDistinct | src/components/MassEdit.jsx:12-18 | the request and execution flags of the two modes are four different keys |
| MassEdit.FlagNotRequestKey | src/components/MassEdit.jsx:140-175 | no flag is the key of a pending request, so raising a flag never overwrites a request |
| MassEdit.UniqueIdInjective | src/components/MassEdit.jsx:67 | `${dateStr}-${vIdx}` names different visits differently, whatever the dates hold |
| MassEdit.GroupEntriesPrefix | src/components/MassEdit.jsx:66-71 | one more visit of a date contributes its entry exactly when it is selected and edited |
| MassEdit.EntriesPrefix | src/components/MassEdit.jsx:65-94 | one more date contributes the entries of its visits after those of the earlier dates |
| MassEdit.GroupEntriesMembers | src/components/MassEdit.jsx:66-71 | the entries of a date are exactly its visits whose identifier is selected and has an edit |
| MassEdit.EntriesMembers | src/components/MassEdit.jsx:65-71 | the entries are exactly the visits of the day list whose identifier is selected and has an edit, each with that edit |
| MassEdit.EntryFacts | src/components/MassEdit.jsx:68-71 | every entry is selected and carries the edit stored under its identifier |
| MassEdit.AnyIncompleteMeans | src/components/MassEdit.jsx:193-201 | the `some` test holds exactly when some selected visit lacks an edit or a field its mode needs |
| MassEdit.ReadyMeans | src/components/MassEdit.jsx:193-201 | the selection is ready exactly when it is not empty and every selected visit has an edit with all its mode's fields filled in |
| MassEdit.ReadyEntries | src/components/MassEdit.jsx:193-201 | when the selection is ready every entry a message lists has a complete edit |
| MassEdit.RenderSnoc | src/components/MassEdit.jsx:65-94 | one more entry appends exactly its block to the message |
| MassEdit.GroupEntriesUnselected | src/components/MassEdit.jsx:68 | with nothing selected a date contributes no entry |
| MassEdit.EmptyEntries | src/components/MassEdit.jsx:65-68 | with nothing selected there are no entries, so a message is its header alone |
| MassEdit.RenderConcat | src/components/MassEdit.jsx:65-94 | the blocks of two runs of entries are those of the first run, then those of the second |
| MassEdit.RenderStep | src/components/MassEdit.jsx:66-92 | rendering one more visit of a date appends its block exactly when it is selected and edited |
| MassEdit.RenderGroup | src/components/MassEdit.jsx:66-93 | the inner `forEach` appends the blocks of one date's entries to the message |
| MassEdit.MessageStep | src/components/MassEdit.jsx:65-94 | one more date appends the blocks of its entries |
| MassEdit.RenderGroups | src/components/MassEdit.jsx:65-94 | the outer `forEach` appends the blocks of every entry in day-list order |
| MassEdit.RenderMessage | src/components/MassEdit.jsx:52-97 | `buildMessage` is the header of the mode and kind followed by one block per entry, in day-list order |
| MassEdit.RequestMessageAgrees | src/components/MassEdit.jsx:75-139 | the block André reads names the same date, stores, type and times as the request stored for that visit |
| MassEdit.Logs | src/components/MassEdit.jsx:117-156 | one log record per entry |
| MassEdit.LogsMeaning | src/components/MassEdit.jsx:117-156 | record `i` describes entry `i`: the user, its date, its store, its reason and, in store-change mode, the new store (else the same store) |
| MassEdit.LogsSnoc | src/components/MassEdit.jsx:117-156 | one more entry appends its log record |
| MassEdit.SaveAllSnoc | src/components/MassEdit.jsx:140-164 | one more entry writes its request under its key |
| MassEdit.SavedLast | src/components/MassEdit.jsx:107-169 | under each key written, the store ends up with the request of the last entry written there |
| MassEdit.SavedElsewhere | src/components/MassEdit.jsx:107-169 | a key no entry writes keeps what it held |
| MassEdit.RequestShowsPending | src/components/MassEdit.jsx:140-164 | after a request the day list marks every requested visit as pending (given non-empty stored text), and in store-change mode shows the stored request when it parses back (src/components/Home.jsx:121-145) |
| MassEdit.SaveAllConcat | src/components/MassEdit.jsx:107-169 | writing two runs of entries is writing the first run, then the second |
| MassEdit.LogsConcat | src/components/MassEdit.jsx:107-169 | the log records of two runs are those of the first run, then those of the second |
| MassEdit.SaveStep | src/components/MassEdit.jsx:108-167 | one more visit of a date writes and logs its request exactly when it is selected and edited |
| MassEdit.SaveGroup | src/components/MassEdit.jsx:108-168 | the inner `forEach` writes and logs the requests of one date's entries |
| MassEdit.SaveGroupStep | src/components/MassEdit.jsx:107-169 | one more date writes and logs the requests of its entries |
| MassEdit.SaveRequests | src/components/MassEdit.jsx:107-169 | the outer `forEach` writes every entry's request in day-list order and logs each one |
| MassEdit.Without | src/components/MassEdit.jsx:23 | `filter(i => i !== id)` keeps exactly the other identifiers |
| MassEdit.WithoutDistinct | src/components/MassEdit.jsx:23 | removing an identifier keeps the list free of repetitions |
| MassEdit.WithoutAbsent | src/components/MassEdit.jsx:23 | removing an absent identifier changes nothing |
| MassEdit.ToggleConsistent | src/components/MassEdit.jsx:20-40 | a toggle keeps each selected visit listed once with exactly the selected visits holding an edit, flips the visit's selection and gives a newly selected visit a fresh edit |
| MassEdit.ToggleTwice | src/components/MassEdit.jsx:20-40 | selecting a visit and deselecting it again restores the selection and the edits |
| MassEdit.Editor.constructor | src/components/MassEdit.jsx:9-18 | the screen starts with nothing selected and each flag read from the mode's key in the store |
| MassEdit.Editor.IsReadyToSubmit | src/components/MassEdit.jsx:193-201 | ready exactly when some visit is selected and every selected visit's edit is complete for the mode |
| MassEdit.Editor.HandleSelect | src/components/MassEdit.jsx:20-40 | the selection and edits become their toggle, keeping the state consistent, and the flags stay |
| MassEdit.Editor.HandleEditChange | src/components/MassEdit.jsx:42-50 | only the one field of the one edit changes; the selection and flags stay |
| MassEdit.Editor.HandleRequestToAndre | src/components/MassEdit.jsx:99-176 | nothing happens with no selection or a declined resend; otherwise every entry's request is stored and logged, the request flag raised and the message opened for André |
| MassEdit.Editor.HandleExecution | src/components/MassEdit.jsx:178-191 | the same guards; otherwise the execution flag is raised and the execution message opened for a contact the user picks |
| DateCard.DayBadge | src/components/DateCard.jsx:17 | the badge is the text before the first `/`, or all of it without one |
| DateCard.WeekdayLabelClean | src/components/DateCard.jsx:19 | the label holds only allowed characters, already upper-cased, so cleaning it again changes nothing |
| DateCard.UpperAllowed | src/components/DateCard.jsx:19 | upper-casing an allowed character gives an allowed character that upper-casing leaves alone |
| DateCard.JsRem | src/components/DateCard.jsx:79-80 | JavaScript's `%`: the remainder lies between zero and the divisor and takes the dividend's sign |
| DateCard.ClockRange | src/components/DateCard.jsx:79-80 | for a non-negative total the hour is in 0..23, the minute in 0..59, and they name the same minute of the day |
| DateCard.ShiftedClock | src/components/DateCard.jsx:75-80 | a non-negative new end lies the original duration after the new start, modulo a day, on a valid clock |
| DateCard.EndTotalOf | src/components/DateCard.jsx:73-78 | without a `NaN` field the new end is the new start plus the original end minus the original start |
| DateCard.EndTextOf | src/components/DateCard.jsx:79-82 | a total prints as its hour of the day and its minute, each padded to two characters |
| DateCard.NaNEnd | src/components/DateCard.jsx:73-82 | a `NaN` field anywhere turns the end into `NaN:NaN` |
| DateCard.Pad2Digits | src/components/DateCard.jsx:82 | a number below 100 pads to two digits that read back as the number |
| DateCard.ClockRoundTrip | src/components/DateCard.jsx:73-82 | an hour and minute in range print as `HH:MM`, which splits and parses back to that hour and minute |
| DateCard.VisitLine | src/components/DateCard.jsx:44-47 | the dot is shown exactly for a pending visit, and the swapped layout exactly when the change has a new store |
| DateCard.SwappedLine | src/components/DateCard.jsx:54-101 | the swapped layout shows the old and new stores, repeats the original range without a new time, and prefers the new store's client |
| DateCard.StandardLine | src/components/DateCard.jsx:106-121 | the standard layout shows the original range, the store and the client when there is one |
| DateCard.FlaggedClient | src/components/DateCard.jsx:96-100 | on a flagged visit of the day list, the client line is the mapped client of the new store, else the visit's own |
| App.ParseLineName | src/App.jsx:16-17 | the name is the trimmed text before the first `;`, and the password is absent exactly when there is no `;` |
| App.ParseLineFields | src/App.jsx:16-17 | a line of name, `;`, password and any further fields parses back to that name and password, trimmed |
| App.Records | src/App.jsx:14-15 | one record for every non-blank line but the first |
| App.RecordsOfFile | src/App.jsx:14-18 | a header followed by non-blank lines yields one record per line after the header, in order |
| App.BlankLineIgnored | src/App.jsx:14 | a blank line anywhere changes no record |
| App.FindByPass | src/App.jsx:37 | a record found is one of the records and has exactly that password |
| App.FindFirst | src/App.jsx:37 | the record found is the first with that password, and nothing is found only when no record has it |
| App.Restore | src/App.jsx:6 | a user is restored exactly when the key is stored |
| App.Persist | src/App.jsx:24-30 | the user effect touches no other key |
| App.PersistRestore | src/App.jsx:6-30 | the next start restores the persisted user when one was logged in, and no user otherwise |
| App.Session.constructor | src/App.jsx:6-7 | the first render reads the user from storage and has no consultant loaded |
| App.Session.ShowsLogin | src/App.jsx:46-48 | the login screen is shown exactly when no user is logged in |
| App.Session.LoadPasswords | src/App.jsx:9-22 | the fetched file replaces the consultant list with its records |
| App.Session.HandleLogin | src/App.jsx:32-44 | the trimmed input selects the first consultant with that password, who becomes the user; on no match the user stays and the alert is raised |
| App.Session.Logout | src/App.jsx:50 | logging out clears the user and brings back the login screen |
| App.Session.PersistUser | src/App.jsx:24-30 | the effect stores a logged-in user and removes the key otherwise, so the next start restores the same user |
| Ordered.Inc | src/components/AdminDashboard.jsx:254 | an increment keeps the counter a well-formed dictionary: distinct keys in order, exactly the keys that hold a count |
| Ordered.TallyOf | src/components/AdminDashboard.jsx:252-257 | the counter a sequence of increments leaves is a well-formed dictionary |
| Directory.FromEntries | src/components/AdminDashboard.jsx:111-118 | the writes of the rows, in order, leave a well-formed dictionary |
| Home.StoreClientMap | src/components/Home.jsx:48-54 | the store-to-client map is a well-formed dictionary |
| Home.Grouped | src/components/Home.jsx:64-78 | the groups by date form a well-formed dictionary |
| Home.Inject | src/components/Home.jsx:81-107 | adding inclusions keeps the groups a well-formed dictionary |
| MassEdit.LogTimes | src/components/MassEdit.jsx:116-156 | a record logs the original range and the new one; in store-change mode the original range stands in unless both new times are filled in |

## Left out

- Network access is not modelled. That covers the log sheet fetch, the status update POST and the spreadsheet log of src/utils/logger.js. The log rows come in as a parameter; the status update and the log records are returned as values.
- CSV download and parsing (src/utils/csv.js) are not modelled. The parsed rows come in as a parameter, each with its fields in column order.
- JSON serialisation and parsing of stored requests are function parameters (`encJP`, `encTime`, `parse`). A stored value that does not parse to an object counts as no request.
- `encodeURIComponent` is a function parameter.
- Browser dialogs are parameters or results. The answer to `window.confirm` is a parameter. `window.open` becomes the returned link, and the login `alert` a returned flag.
- Date semantics are library calls that depend on the locale and the time zone, so they are left out:
  - the dashboard's week and custom-range filters;
  - the date comparison that breaks ties in the pending-first order;
  - the home screen's date parsing, its dropping of past days and its date sort of groups;
  - `toISOString` timestamps.
- Dashboard.ProcessedOrder: states which records are shown and that pending ones come first, without the date order inside each part.
- Unicode is covered only as far as Latin-1 goes. `toUpperCase` maps ASCII and the one-to-one Latin-1 letters. `normalize('NFD')` plus mark removal maps the accented Latin-1 letters to their base letter. Other scripts, `ß` and other one-to-many case mappings are not modelled.
- Sorting.Sort: the default `sort()` compares UTF-16 code units; the model compares characters (code points), which agrees outside the astral planes.
- `Object.keys` lists integer-like keys first in JavaScript. The model keeps every key in insertion order; store names and dates are not integer-like.
- DateCard.NumberOf: `Number()` on a time field is modelled for blank text (0) and unsigned decimal digits only. Signs, decimals, exponents and hexadecimal give `NaN` in the model. Surrounding white space is trimmed with the white-space set of `Text.Trim`.
- The `try`/`catch` around the end-time computation is left out. Visit fields are always strings in the model, so nothing throws.
- MassEdit.Editor.HandleEditChange: editing a visit that has no edit starts from empty fields. JavaScript would leave the other fields `undefined`, which renders as the text `undefined`.
- The mass-edit `mode` has two values, `jp` and `time`: the home screen opens the screen with no other.
- The home screen's admin list, its dashboard switch, modals, scrolling, framer-motion animations and recharts handlers are UI and are not modelled.
- React effects are explicit method calls (`App.Session.PersistUser`, `App.Session.LoadPasswords`).
- Fetch failures are left out, including the password file's `catch` that only logs the error.
- VisitDetailModal.jsx, AddVisitModal.jsx and Login.jsx are not part of this model. They hold forms, message templates and storage writes already covered by the mass-edit screen.
