# Academic chatbot core, modelled in Dafny

The chatbot (`main.py`, a Streamlit app backed by Firestore and a remote
language model) decides on every turn whether the assistant's reply should be
shown with a chart or a table. That decision, together with the bookkeeping
around it, is the part modelled here:

- **Intent** (`intent.dfy`): `detect_data_request` and `_determine_viz_type`.
  A keyword test on the lower-cased user turn decides whether a visualization
  is wanted. A digit plus a `1.`/`2.`/`-` substring in the reply decides
  whether the reply is data-bearing. An ordered keyword-group lookup picks the
  chart family: comparison, then timeline, then pie, then table, else bar.
- **Extraction** (`extraction.dfy`): `extract_data_from_response`. The reply
  is split on `\n`. Each line is searched with the pattern
  `(?:\d+\.\s*|-\s*)([^:]+):\s*(.+)`, and the first numeral of the value text
  becomes the record's value.
  - The pattern is stated declaratively, over every way it can match.
  - The scanner is proved to find `re.search`'s leftmost match.
  - Every binding the regex could choose at that start gives the same groups
    once they are stripped.
- **Lists** (`lists.dfy`): replies written as lists, one `N. label: value`
  or `- label: value` item per line. Such a reply is read back item by item
  when each item's value holds a digit.
  It passes the data-bearing test when its first item is numbered `1.` or
  `2.` or is a `-` bullet. A list such as "3. Andi: 85", which holds none of
  `1.`, `2.` or `-` anywhere, fails it.
- **Pipeline** (`pipeline.dfy`): the empty-data guards of
  `create_visualization` and `create_table`, the figure kind each family gets,
  and `process_response_with_visualization`.
- **Paging** (`paging.dfy`): the page count and offset/limit slice of
  `get_conversation_history`, the admin panel's 20-row pages, and the
  First/Prev/Next/Last control `render_pagination`.
- **Identity** (`identity.dfy`):
  - `generate_anonymous_user_id`;
  - the owner key of a chat turn, and the `is_anonymous` flag of a stored message;
  - logout's session clean-up, and `AuthManager.is_admin`.
- **Secrets** (`secrets.dfy`): the private-key repair in `init_firebase`,
  which turns backslash-`n` into newlines.
- **Strings** (`strings.dfy`) and **Wrappers** (`wrappers.dfy`) hold the
  Python string operations the above rely on. Those are `in` on strings,
  `str.lower`, `str.strip`, `str.split('\n')` and the regex character classes.
- **Scenarios** (`scenarios.dfy`): two example turns.
  - A request for a comparison chart of three students' scores gets a
    comparison chart with three bars, in order.
  - A question that asks for no chart gets its answer back bare.

Two behaviours of `main.py` that a reader might not expect are modelled as written:
- A reply counts as data-bearing when `1.`, `2.` or `-` occurs anywhere in it.
  It need not be at the start of a line.
- The extraction pattern requires a list marker. Through `re.search`, the
  marker may sit anywhere in the line. For example, the `-` of "rata-rata" in
  "Nilai rata-rata: 85" is a marker, and the label is then "rata".

## Model

| member | source | states |
|---|---|---|
| Strings.Occurs | main.py:240 | Python's `t in s` holds exactly when `t` occurs at some index of `s` |
| Strings.LowerKeepsLowerWord | main.py:232-236 | a lower-case keyword present in the turn is still found after the turn is lower-cased, whatever the case of the rest |
| Strings.Lower | main.py:232 | `str.lower()` keeps the length and maps each upper-case ASCII letter to its lower-case letter, leaving every other character alone |
| Strings.HasDigit | main.py:239 | `re.search(r'\d+', s)` succeeds iff the scan for a digit stops inside the text |
| Strings.SplitLines | main.py:265 | `split('\n')` yields at least one piece, and no piece holds a newline |
| Strings.JoinSplit | main.py:265 | joining the pieces of `split('\n')` with newlines gives back the original text |
| Strings.SplitJoin | main.py:265 | splitting newline-free pieces joined by newlines gives back those pieces |
| Strings.Strip | main.py:274-275 | `strip()` returns a text that neither starts nor ends with whitespace and is no longer than its input |
| Strings.StripSlice | main.py:274-275 | `strip()` returns a contiguous slice with whitespace only before and after it, and the slice neither starts nor ends with whitespace |
| Strings.StripSpacePrefix | main.py:270-275 | leading whitespace, such as the part the regex's `\s*` may take, does not change what `strip()` returns |
| Intent.AnyOccurs | main.py:236 | `any(w in text for w in words)` holds exactly when some listed word occurs in the text |
| Intent.DetermineVizType | main.py:248-261 | the family is comparison iff a comparison word occurs in the lower-cased turn. Timeline iff none does and a timeline word does. Likewise pie, then table, and bar iff no group's word occurs |
| Intent.HasListMarker | main.py:240 | `'1.' in r or '2.' in r or '-' in r`: one of the three occurs anywhere in the reply |
| Intent.DetectDataRequest | main.py:225-246 | visualization wanted iff one of the 11 keywords occurs in the lower-cased turn. Data-bearing iff the reply has a digit and contains `1.`, `2.` or `-` as a substring. The family is `_determine_viz_type`'s |
| Intent.CaseInsensitive | main.py:232-236 | two turns equal up to upper/lower case get the same classification against the same reply |
| Intent.LowerInputSameRequest | main.py:232 | lower-casing the turn beforehand changes nothing |
| Intent.ResponseIrrelevantToIntent | main.py:225-246 | whether a visualization is wanted, and which family, does not depend on the reply |
| Intent.NoDigitNoData | main.py:239-244 | a reply without digits is never data-bearing |
| Intent.ComparisonWins | main.py:252-253 | a turn containing "perbandingan" asks for a comparison, whatever else it contains, "tabel" included |
| Intent.TimelineBeatsPieAndTable | main.py:254-255 | without a comparison word, "trend" selects the timeline over the pie and table groups |
| Intent.TableFamilyFromTabel | main.py:227-259 | "tabel" both asks for a visualization and, absent the earlier groups, selects the table family |
| Extraction.MatchAt | main.py:270-271 | a start matches iff a marker ends there and the first colon after it has a character on each side. The label then runs from the marker end to that first colon |
| Extraction.MatchAtSound | main.py:270-271 | the marker end and first colon the scanner computes form a match of the pattern |
| Extraction.MatchAtComplete | main.py:270-271 | every match of the pattern from a start has the computed marker end and colon |
| Extraction.GroupsAfterStrip | main.py:270-275 | every binding of the two `\s*` gives the same label and value text after `strip()` |
| Extraction.SearchFrom | main.py:271 | the search returns the first start that matches, with no match before it, and none exactly when no start matches |
| Extraction.MatchLine | main.py:270-275 | a line matches iff some start matches, and then the groups are the stripped groups of the leftmost match, however the regex binds them |
| Extraction.FirstNumeral | main.py:278-279 | no numeral iff the value text has no digit. Otherwise the numeral is the maximal digit run at the first digit, plus `.digits` when a point and a digit follow |
| Extraction.DigitsAreNumeral | main.py:278 | a value made only of digits is its own numeral |
| Extraction.NumeralInText | main.py:278-281 | the numeral's text occurs verbatim in the value text it was taken from |
| Extraction.RecordOf | main.py:270-281 | a line yields a record iff it matches and its value text has a digit. The label and description are the stripped groups. The label has no colon, both are trimmed, and the value is the first numeral of the description, whose text occurs in it |
| Extraction.ExtractLines | main.py:268-283 | at most one record per line, and every record is well formed |
| Extraction.ExtractData | main.py:263-283 | no more records than lines, and every record is well formed |
| Extraction.ExtractDataAppend | main.py:265-283 | the records of two texts joined by a newline are the first text's followed by the second's, so source order is kept |
| Extraction.ExtractDataOneLine | main.py:268-281 | one line gives at most one record, exactly when it matches and its value text has a digit, and that record is the line's |
| Extraction.ExtractDataEmpty | main.py:263-283 | empty input gives no records |
| Extraction.NoColonNoMatch | main.py:270-273 | a line without a colon never matches |
| Extraction.NoColonNoRecords | main.py:263-283 | a reply without any colon gives no records |
| Lists.ItemMatch | main.py:270-275 | on a `N. label: value` or `- label: value` line with a clean label and a trimmed value, digits or not, the pattern's stripped groups are exactly that label and value |
| Lists.ItemLineRecord | main.py:270-281 | such a line, when its value holds a digit, yields one record whose label and description are the item's label and value |
| Lists.PlainListExtracted | main.py:263-283 | a list of such lines is read back item by item, in order, one record per line |
| Lists.PlainListLooksLikeData | main.py:239-240 | a reply written as such a list holds a digit and contains its first item's marker |
| Lists.ListMarkedWithDigits | main.py:239-244 | a list reply opening with `1.`, `2.` or `-` meets both halves of the data-bearing test |
| Pipeline.KindOf | main.py:292-309 | the plain fallback bar is the figure of the table family and of no other |
| Pipeline.KindOfInjective | main.py:292-309 | each family gets its own figure kind |
| Pipeline.PointsOf | main.py:290-293 | one chart datum per record, in order, with the record's label and value; duplicates are not merged |
| Pipeline.CreateVisualization | main.py:285-309 | no figure iff there is no data. Otherwise the family's figure kind, the given title and one point per record |
| Pipeline.CreateTable | main.py:320-326 | no table iff there is no data; otherwise the rows are the records |
| Pipeline.ProcessResponse | main.py:432-455 | the reply is returned unchanged, and a chart and a table are never both set. Either is set iff a visualization is wanted, the reply is data-bearing and extraction is non-empty. The table is set iff that holds and the family is table. The chart family is set exactly alongside a chart |
| Pipeline.NoDigitsNoVisualization | main.py:443-455 | a reply without digits comes back bare, whatever the turn |
| Pipeline.NoKeywordNoVisualization | main.py:443-455 | a turn without a keyword gets its reply back bare, even when the reply is full of data |
| Pipeline.ChartNeverPlain | main.py:447-453 | a chart is never of the fallback plain-bar kind, because the only family that reaches it is diverted to a table |
| Scenarios.ScoresExtracted | main.py:263-283 | "1. Andi: 85", "2. Budi: 90", "3. Citra: 78" give the records Andi/85, Budi/90 and Citra/78, in that order |
| Scenarios.ScoresLookLikeData | main.py:239-240 | the scores reply has a digit and contains `1.` |
| Scenarios.KeywordsNeedLetters | main.py:227-236 | every keyword has an r, t, c or l, so a turn without those letters wants no visualization |
| Scenarios.ComparisonChartScenario | main.py:432-455 | "Tunjukkan grafik perbandingan nilai mahasiswa" with the scores gives a comparison chart titled "Academic Data Visualization", one bar per student in order, and no table |
| Scenarios.PlainAnswerScenario | main.py:432-455 | "siapa dosen pembimbing saya" gets its answer back with no chart, no table and no family |
| Paging.TotalPages | main.py:522 | the page count is the least number of pages that holds all the items, and it is zero iff there are none |
| Paging.PageOf | main.py:492-498 | a page holds at most the page size, from the offset `(page-1)*size` on, as many as remain, and nothing past the end |
| Paging.PagesCoverItems | main.py:492-522 | pages 1 to total_pages, one after another, are exactly the items: nothing is skipped or shown twice |
| Paging.PastLastPageEmpty | main.py:496-498 | a page past the last one is empty |
| Paging.PagesUpToLastNonEmpty | main.py:496-522 | every page from the first to the last has at least one item |
| Paging.GetConversationHistory | main.py:490-526 | a failed read gives the error. Otherwise the requested page, the total count, the page asked for, and a page count that holds all the messages with no empty page at the end |
| Paging.PageNewestFirst | main.py:494-498 | a page of a newest-first history is newest first, and everything on it is at least as new as anything on a later page |
| Paging.SavedMessageOpensPageOne | main.py:478-498 | in any newest-first ordering of the history, a message strictly newer than every other one is the first item of page 1 |
| Paging.TwentyFiveMessages | main.py:496-522 | 25 items at 10 per page make 3 pages of 10, 10 and 5 items, and page 4 is empty |
| Paging.AdminView | main.py:1024-1032 | the admin page is the slice of the rows from offset `(page-1)*20` on: 20 rows, or as many as remain, and none past the end. The page count holds all rows with no empty page at the end |
| Paging.AdminPagesInRange | main.py:1024-1032 | an admin page is empty exactly when it is past the last page |
| Paging.Navigate | main.py:619-646 | with at most one page, or a disabled button, the page is unchanged. From a page in range the result stays in range, and it is never below 1 from a page at least 1. With more than one page, an enabled First goes to 1, Prev to the page before, Next to the page after and Last to total_pages |
| Paging.NextPrevInverse | main.py:630-640 | Prev undoes Next and Next undoes Prev, away from the ends |
| Paging.NextReachesEveryPage | main.py:638-640 | clicking Next k times from a page reaches the page k further on, so every page is reachable |
| Identity.GenerateAnonymousUserId | main.py:419-423 | a session's existing id is returned unchanged. Otherwise it is `"anon_"` and the first 8 digits of the uuid, and it is stored. No other key changes |
| Identity.AnonIdStable | main.py:419-423 | a second call, whatever uuid it draws, returns the same id and leaves the session alone |
| Identity.AnonIdShape | main.py:422 | the id is `"anon_"` followed by 8 lower-case hex digits, 13 characters in all, and the session stays well formed |
| Identity.AnonIdIsAnonymous | main.py:483 | every generated anonymous id is flagged anonymous when stored |
| Identity.OwnerKey | main.py:824 | the owner is the logged-in user's id when there is one, else the anonymous id. The anonymous id is created either way, because the default argument is evaluated eagerly |
| Identity.IsAnonymous | main.py:483 | `user_id.startswith("anon_")` holds iff the id is `"anon_"` followed by some text |
| Identity.SaveConversation | main.py:478-484 | the stored document keeps the turn's input and reply, and `is_anonymous` holds iff the owner key starts with `anon_` |
| Identity.LoggedOutSavesAnonymously | main.py:824 | without a login, what is saved is flagged anonymous |
| Identity.Logout | main.py:687-694 | after logout only `anonymous_user_id` can remain, with its old value, and it remains iff it was there |
| Identity.LogoutKeepsAnonymousOwner | main.py:689-694 | after logout the visitor is anonymous again under the same id as before logging in |
| Identity.LogoutIdempotent | main.py:689-694 | logging out twice is logging out once |
| Identity.IsAdmin | main.py:413-417 | an address is an administrator iff it equals one of the two listed addresses up to letter case |
| Identity.IsAdminCaseInsensitive | main.py:413-417 | administrator status does not depend on the address's letter case |
| Identity.ListedAreAdmins | main.py:413-417 | both listed addresses are administrators |
| Secrets.ReplaceEscapes | main.py:346 | the replacement never lengthens the text, leaves a text without a backslash-`n` unchanged and shortens any text that has one |
| Secrets.FixPrivateKey | main.py:343-346 | a key without a backslash-`n` is left alone, and no backslash-`n` remains after the repair |
| Secrets.NoEscapeLeft | main.py:346 | `replace("\\n", "\n")` leaves no backslash-`n` behind, even where backslashes are doubled |
| Secrets.FixIdempotent | main.py:345-346 | repairing twice is repairing once |
| Secrets.ReplaceUndoesEscape | main.py:346 | un-escaping undoes escaping for text that held no backslash-`n` of its own |
| Secrets.FixRestoresKey | main.py:343-346 | a key stored with its newlines escaped is repaired to the original key |

## Left out

- Foreign libraries:
  - the plotly figures (colours, angles, layout);
  - the pandas DataFrame wrapping. Only the family-to-figure dispatch and
    the empty-data guard are modelled.
- `float(...)` of the extracted value: the value is kept exactly, as its digit
  strings.
- Unicode case mapping. `str.lower` is modelled for ASCII letters only, and
  `\d` for ASCII digits only. `\s` and `strip()` use Python's whole whitespace
  set.
- Firestore:
  - Reads and writes, the store's ordering by timestamp, and the count query
    are out. A history read is a parameter that is either the owner's
    messages, already newest first, or the error it raised.
  - `save_conversation`'s failure path (an error notice and `False`) is out.
  - `get_all_conversations` is out.
- Admin sorting: pandas' `sort_values` is out. The admin rows arrive already
  newest first.
- Randomness and time: `uuid4` is a parameter, as is the timestamp of a saved
  message, which is an integer that grows with time.
- Outside calls: the HTTP call to the model (`send_message_to_api`),
  Firebase initialisation and credentials, and `AuthManager`'s account calls.
- Presentation:
  - the CSS, the chat and history rendering (including the history's reversed
    display);
  - the metrics, the CSV export and the debug panel.
- Sessions: session values other than strings, such as the message list,
  flags and the current page, are out. A session is a map from keys to strings.
- Paging.PageOf: requires a page of at least 1 and a positive size. The pages
  used start at 1 and `Paging.Navigate` keeps them at 1 or above. The sizes
  are the constants 10 and 20.
- Paging.Navigate: a click on a disabled button cannot happen in the UI. It is
  modelled as leaving the page unchanged.
- Strings.Strip: its own contract says only that the result is trimmed and
  no longer than the input. `Strings.StripSlice` states the rest: the result
  is a slice of the input with only whitespace cut away. That fact is kept out
  of the function's contract so that the proofs that mention `strip()` stay small.
- Identity.GenerateAnonymousUserId: requires the uuid parameter to look like
  `uuid4().hex`, 32 lower-case hex digits, as the library guarantees.
