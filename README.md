# AWS IAM dataset fetchers, modelled in Dafny

The repository builds one JSON dataset of AWS IAM actions, resource types and condition
keys per service. Three Python scripts produce it:

- `fetch_iam_data.py` fetches each service from the Service Reference JSON API. It runs the
  fetches on a worker pool and writes the records sorted by service id.
- `fetch_iam_data_with_dependent.py` does the same. It then scrapes each service's
  Service Authorization Reference page and fills in the `dependentActions` of every action
  from the last column of the actions table.
- `fetch_iam_full.py` builds every record from the reference pages alone. It guesses the page
  url, reads the actions, resource types and condition keys tables, and derives flags and
  properties from the cell texts.

This project models the record-shaping rules of those scripts. The network and the HTML
parser are replaced by their results:

- A HEAD request is an oracle `string -> Option<int>`, where `None` means the request raised.
- A GET of a reference page is an oracle `string -> Option<Html.Response>`.
- A fetch of a JSON document is an oracle `string -> Option<JsonService>`. `None` covers
  a raise, an error status and a body that is not JSON: the script catches all three.
- A parsed page is `Html.Page`: its tables of rows of cells, each cell with its text and
  the texts of its links.
- The order in which the worker pool completes is a parameter `completed`. It is
  required to be a reordering of the service list.

Modules:

- `Text`: the Python string operations the scripts use (`strip`, `lower`, `in`,
  `replace`, string order).
- `Lists`: the two loop shapes. One maps every element. The other keeps the values of the
  elements it accepts (`Pick`).
- `DependentPattern`: an exact model of `re.findall` for the dependent-action pattern.
- `Consolidation`: the success/failure partition, the sort and the written document.
- `ServiceReference`: the JSON-to-record mapping and `get_access_level`, shared by both
  JSON fetchers.
- `IamData`, `IamDependent`, `IamFull`: one module per script.

Every `for` loop statement of the scripts is a `method` with a `while` loop. It is proved
equal to a function that defines its result. The properties are proved about those
functions. The list comprehensions (`[... for ... in ...]`) are functions, such as
`Lists.Map` and `DependentPattern.Tokens`.

In `fetch_iam_data_with_dependent.py`, the loop over the three candidate pages has no
`try` of its own. A GET that raises on the first candidate therefore ends the whole scrape
with the empty map; the later candidates are not tried. The model keeps this behaviour
(`IamDependent.FirstOkPage`).

## Model

| member | source | states |
|---|---|---|
| Text.Strip | fetch_iam_full.py:92 | the result has no leading or trailing white space and is a contiguous slice of the input |
| Text.StripSpec | fetch_iam_full.py:92 | only white space is removed: everything before and after the kept slice is white space |
| Text.Lower | fetch_iam_full.py:35 | same length, each character lowered, no upper-case letter left |
| Text.LowerAppend | fetch_iam_full.py:35 | lowering works piece by piece |
| Text.LowerContains | fetch_iam_data_with_dependent.py:136 | a string holding `sub` holds `sub` lowered once it is lowered, so a substring test on the lowered text catches every mix of cases |
| Text.RemoveChar | fetch_iam_full.py:35 | the character is gone; every other character is kept, each as often as in the input |
| Text.RemoveCharAppend | fetch_iam_full.py:35 | removal works piece by piece (`RemoveChar(a + b) == RemoveChar(a) + RemoveChar(b)`), so the kept characters keep their order |
| Text.LessEqTotal | fetch_iam_full.py:260 | Python's string order is total, so the sort key order is a total preorder |
| Text.LessEqTransitive | fetch_iam_full.py:260 | Python's string order is transitive |
| IamFull.NormalizeServiceName | fetch_iam_full.py:33-35 | the normalised name has no `-`, no `_`, no upper-case letter, and is no longer than the name |
| IamFull.NormalizeIdempotent | fetch_iam_full.py:33-35 | normalising twice is normalising once |
| IamFull.NormalizeAppend | fetch_iam_full.py:33-35 | normalising works piece by piece: the normalised name of `a + b` is that of `a` followed by that of `b`, so the kept characters keep their order |
| IamFull.NormalizeChar | fetch_iam_full.py:33-35 | a single `-` or `_` is dropped; every other character is kept, lowered |
| IamFull.CandidateUrls | fetch_iam_full.py:19-30 | the special-case page comes first, and only for a special-case key; then `list_amazon`, `list_aws`, `list_` in that order |
| IamFull.FirstFoundFrom | fetch_iam_full.py:52-61 | the index returned is the first found candidate from `i` on; none is found when it returns nothing |
| IamFull.DocUrlFor | fetch_iam_full.py:38-61 | the url is the first candidate whose HEAD answers 200, and it is absent exactly when no candidate answers 200 |
| IamFull.SpecialCaseFirst | fetch_iam_full.py:43-48 | an accepted special-case page wins over every pattern page |
| IamFull.GetServiceDocUrl | fetch_iam_full.py:38-61 | the loops over the special case and the patterns return the url `DocUrlFor` defines |
| IamFull.PropertiesOf | fetch_iam_full.py:160-170 | `IsWrite` iff the lowered level contains "write"; `IsRead` iff "read" and not write, so never both; `IsPermissionManagement` iff "permission" or "management"; `IsList` iff "list"; `IsTaggingOnly` iff "tagging" |
| IamFull.ActionRow | fetch_iam_full.py:98-100 | a row yields an action iff it has at least four cells, and then the action `ActionFromRow` builds |
| IamFull.ActionFields | fetch_iam_full.py:102-170 | in the action `ActionFromRow` builds, name, description and access level are the stripped texts of cells 0, 1 and 2, and the properties are derived from that access level |
| IamFull.ActionResources | fetch_iam_full.py:116-127 | in `ActionFromRow`, the resources are the non-empty stripped links of cell 3; resource-level support iff one of them holds `*` |
| IamFull.ActionConditionKeys | fetch_iam_full.py:129-136 | in `ActionFromRow`, the condition keys are exactly the non-empty stripped links of cell 4 that hold `:`, and none when the row has four cells |
| IamFull.ActionTagFlags | fetch_iam_full.py:150-159 | each tag flag holds iff some condition key contains "RequestTag", "ResourceTag" or "TagKeys" |
| IamFull.ActionDependents | fetch_iam_full.py:138-148 | a row of more than five cells has as dependent actions exactly the `re.findall` matches (`FindAll`) of its stripped last cell; rows of at most five cells have none; every one found is a `service:Action` token |
| IamFull.ActionReadWrite | fetch_iam_full.py:160-170 | no scraped action is both read and write |
| IamFull.ResourceNames | fetch_iam_full.py:117-123 | a text is listed iff it is the non-empty stripped text of a link |
| IamFull.ConditionKeyNames | fetch_iam_full.py:130-136 | a text is listed iff it is the non-empty stripped text of a link and holds `:` |
| IamFull.ResourceNamesOrder | fetch_iam_full.py:117-123 | the resource names are the stripped texts of the kept links, one per kept link and in link order |
| IamFull.ConditionKeyNamesOrder | fetch_iam_full.py:130-136 | the condition keys are the stripped texts of the kept links, one per kept link and in link order |
| IamFull.ScrapeActionRow | fetch_iam_full.py:100-172 | the field-by-field construction of `action_data` yields the action `ActionFromRow` defines |
| IamFull.ScrapeResourceLinks | fetch_iam_full.py:117-127 | the loop appends the kept links in order and sets the flag iff one holds `*` |
| IamFull.ScrapeConditionKeyLinks | fetch_iam_full.py:130-136 | the loop appends the kept links in order |
| IamFull.ResourceRow | fetch_iam_full.py:177-188 | a row gives a resource iff it has two cells and a non-empty name; the name is the stripped first cell; `arnFormats` is `[arn]`, or `[]` when the ARN text is empty |
| IamFull.ConditionKeyRow | fetch_iam_full.py:193-204 | a row gives a key iff it has two cells and a non-empty name; the name is the stripped first cell; `types` is `["String"]` when the type text is empty |
| IamFull.KindOf | fetch_iam_full.py:94-191 | a table is an actions table iff its headers hold "Actions" and "Access level"; a resources table iff it is not an actions table and holds "Resource types" and "ARN"; a condition keys table iff it is neither and holds "Condition keys" and "Type" |
| IamFull.TableContributes | fetch_iam_full.py:91-204 | a table adds its rows to the list of its own kind only, and nothing when it is of no kind |
| IamFull.TablesAppend | fetch_iam_full.py:89-91 | the tables are read in document order: the actions, resources and condition keys of two runs of tables are concatenated |
| IamFull.TablesStep | fetch_iam_full.py:91-204 | one more table extends each of the three lists by that table's rows of its own kind |
| IamFull.ActionsTableRows | fetch_iam_full.py:96-172 | an actions table yields one action per row of at least four cells, in row order, and nothing for shorter rows |
| IamFull.ScrapeActionRows | fetch_iam_full.py:98-172 | the row loop appends the action of each row of four cells or more |
| IamFull.ScrapeResourceRows | fetch_iam_full.py:177-188 | the row loop appends the resource of each qualifying row |
| IamFull.ScrapeResourceRow | fetch_iam_full.py:177-188 | the body of the resource row loop builds exactly the resource `ResourceRow` defines |
| IamFull.ScrapeConditionKeyRows | fetch_iam_full.py:193-204 | the row loop appends the key of each qualifying row |
| IamFull.ScrapeConditionKeyRow | fetch_iam_full.py:193-204 | the body of the condition-key row loop builds exactly the key `ConditionKeyRow` defines |
| IamFull.ScrapeTables | fetch_iam_full.py:91-204 | the table loop reads each table by the first header test it passes |
| IamFull.ScrapeServiceOutcome | fetch_iam_full.py:64-216 | a record exists iff a page is found and its GET does not raise; it carries the service id |
| IamFull.ScrapeServiceContents | fetch_iam_full.py:75-212 | the record `ScrapeService` writes for a found page: the stripped title text or else the service id as `DisplayName`, and the actions, resources and condition keys of the page's tables |
| IamFull.ScrapeServiceData | fetch_iam_full.py:64-216 | the scrape of one service gives the record `ScrapeService` defines |
| IamFull.ScrapeEach | fetch_iam_full.py:241-257 | the loop appends each record to `all` and each failed name to `failed`, in list order |
| IamFull.ScrapeAll | fetch_iam_full.py:219-274 | no document without a service list; otherwise the records are sorted by service id and are those scraped, each listed name is in exactly one of the records and `failedServices`, `totalServices` counts the records, and `lastUpdated` is the given timestamp |
| Consolidation.PartitionCovers | fetch_iam_data.py:129-138 | the ids of the records plus the failed ids are the visited ids, each exactly as often as visited |
| Consolidation.Insert | fetch_iam_data.py:141 | inserting into a sorted list keeps it sorted and adds exactly one element |
| Consolidation.SortBy | fetch_iam_data.py:141 | the sort's result is ordered by service id and is a reordering of its input |
| Consolidation.Consolidate | fetch_iam_data.py:145-155 | the written services are sorted and a reordering of the records; `totalServices` is their number; `failedServices` is the failed list; `lastUpdated` is the given timestamp |
| ServiceReference.GetAccessLevel | fetch_iam_data_with_dependent.py:182-195 | one of the five labels; "List" iff `IsList`; "Write" iff `IsWrite` and not `IsList`; then permissions management, then tagging; "Read" when annotations or properties are absent |
| ServiceReference.ReadIsDefault | fetch_iam_data.py:94-108 | "Read" iff none of the four flags is set |
| ServiceReference.ToAction | fetch_iam_data_with_dependent.py:51-74 | name and access level carried over; one resource name per input resource, in order; resource-level support iff there is one; the tag flags by substring test; `dependentActions` is `[]` in the dependent variant and absent in the plain one; `properties` is the annotations' `Properties`, or the empty map when the annotations or their properties are absent |
| ServiceReference.ToResource | fetch_iam_data.py:73-79 | the name is kept and `arnFormats` defaults to `[]` |
| ServiceReference.ToConditionKey | fetch_iam_data.py:82-85 | the name is kept and `types` defaults to `[]` |
| ServiceReference.Process | fetch_iam_data.py:39-85 | the record keeps the service id, takes `Name` or else the id, and maps actions, resources and condition keys one to one and in order |
| ServiceReference.FetchedApply | fetch_iam_data.py:28-137 | `Fetched` gives the processed record exactly when the fetch succeeds; `FetchFailure` gives the service id exactly when it fails |
| ServiceReference.FetchServiceData | fetch_iam_data.py:28-91 | the fetch gives the processed record, or nothing when the fetch failed |
| ServiceReference.ProcessActions | fetch_iam_data.py:48-70 | the action loop appends the record of every input action |
| ServiceReference.ProcessResources | fetch_iam_data.py:73-79 | the resource loop appends the record of every input resource |
| ServiceReference.ProcessConditionKeys | fetch_iam_data.py:82-85 | the condition-key loop appends the record of every input key |
| ServiceReference.FetchEach | fetch_iam_data.py:129-138 | the loop over completed fetches appends each record to `all_data` and each failed id to `failed`, in completion order |
| ServiceReference.FetchedKeys | fetch_iam_data.py:28-45 | every fetched record carries the id of the service it was fetched for |
| ServiceReference.CompletionOrder | fetch_iam_data.py:123-138 | in whatever order the fetches complete, the records and failed ids are, as multisets, those of the listed services, and every listed id is in exactly one of them |
| IamData.FetchAll | fetch_iam_data.py:111-155 | no document without a service list; otherwise the services are sorted, are the fetched records, each listed id is in exactly one of `services` and `failedServices`, and `totalServices` counts the services |
| IamDependent.DocServiceName | fetch_iam_data_with_dependent.py:103 | the page name drops every `-` and `_`, keeps every other character as often as in the id, and is not lower-cased |
| IamDependent.DocServiceNameAppend | fetch_iam_data_with_dependent.py:103 | the page name is built piece by piece, so every kept character keeps its place |
| IamDependent.DocUrls | fetch_iam_data_with_dependent.py:106-110 | the candidates are `list_`, `list_aws`, `list_amazon`, in that order |
| IamDependent.FirstOkPage | fetch_iam_data_with_dependent.py:112-119 | the page is that of the first candidate answering 200 after only non-200 answers; nothing when a GET raises first or none answers 200 |
| IamDependent.FetchDocPage | fetch_iam_data_with_dependent.py:112-119 | the candidate loop gives the page `FirstOkPage` defines |
| IamDependent.MergeLinks | fetch_iam_data_with_dependent.py:161-170 | the regex matches stay an unchanged prefix; at most one entry is added per link |
| IamDependent.MergeLinksDistinct | fetch_iam_data_with_dependent.py:165-170 | no added link repeats an entry before it |
| IamDependent.MergeLinksAppend | fetch_iam_data_with_dependent.py:162-170 | merging two runs of link texts is merging the first, then the second: the links are visited in order |
| IamDependent.MergeLinksOne | fetch_iam_data_with_dependent.py:162-170 | a link text is appended exactly when it names an action and is not listed yet |
| IamDependent.MergeLinksMembers | fetch_iam_data_with_dependent.py:161-170 | an entry is listed iff it is a regex match or a non-empty link text holding `:` |
| IamDependent.LinkTextsMembers | fetch_iam_data_with_dependent.py:162-164 | a text is a link text of the cell iff it is the stripped text of one of its links |
| IamDependent.CellDependentsOrder | fetch_iam_data_with_dependent.py:150-170 | `CellDependents` starts with the pattern matches of the stripped cell text, and no link added after them repeats an earlier entry |
| IamDependent.CellDependentsLastLink | fetch_iam_data_with_dependent.py:162-170 | one more link at the end of the cell appends its stripped text when it names an action not listed yet, and changes nothing otherwise |
| IamDependent.CellDependentsMembers | fetch_iam_data_with_dependent.py:150-170 | an entry of `CellDependents` iff it is a pattern match or the non-empty stripped text of a link holding `:` |
| IamDependent.CollectDependents | fetch_iam_data_with_dependent.py:150-170 | the loops over the matches and the links give the list `CellDependents` defines |
| IamDependent.DependentHeaderSearched | fetch_iam_data_with_dependent.py:130-140 | `IsDependentTable`: a table is searched when one of its headers contains "ependent" in any mix of cases |
| IamDependent.DependentActionsHeader | fetch_iam_data_with_dependent.py:130-140 | a table with the reference pages' "Dependent actions" header is searched |
| IamDependent.RowEntry | fetch_iam_data_with_dependent.py:144-173 | a row gives an entry iff it has at least five cells and its last cell names some dependent action; the key is the stripped first cell |
| IamDependent.EntriesMembers | fetch_iam_data_with_dependent.py:128-173 | an entry is in `Entries` iff some body row of some searched table of the page gives it |
| IamDependent.AssignAppend | fetch_iam_data_with_dependent.py:130-173 | storing the entries of two tables is storing the first table's, then the second's |
| IamDependent.AssignLastWins | fetch_iam_data_with_dependent.py:172-173 | an action is a key iff some entry names it, and it maps to the last such entry's list |
| IamDependent.EntriesNonEmpty | fetch_iam_data_with_dependent.py:172-173 | every stored entry carries a non-empty list |
| IamDependent.MapValuesNonEmpty | fetch_iam_data_with_dependent.py:172-173 | no action maps to an empty list |
| IamDependent.DependentMapFacts | fetch_iam_data_with_dependent.py:98-179 | `DependentMap` is empty when no page is found; otherwise an action is a key iff some entry of the page names it, and no key maps to an empty list |
| IamDependent.ScrapeDependentActions | fetch_iam_data_with_dependent.py:98-179 | the scrape gives the map `DependentMap` defines, the empty map when no page is found |
| IamDependent.ScrapeTables | fetch_iam_data_with_dependent.py:130-173 | the table loop stores the entries of every searched table, in document order |
| IamDependent.ScrapeRows | fetch_iam_data_with_dependent.py:143-173 | the row loop stores each row's entry in order |
| IamDependent.ScrapeRow | fetch_iam_data_with_dependent.py:143-173 | the body of the row loop gives exactly the entry `RowEntry` defines |
| IamDependent.EnrichAction | fetch_iam_data_with_dependent.py:235-238 | an action named in the map gets the mapped list; nothing else about the action changes |
| IamDependent.Enrich | fetch_iam_data_with_dependent.py:229-238 | only the actions' `dependentActions` change; id, name, resources and condition keys stay |
| IamDependent.MergeDependents | fetch_iam_data_with_dependent.py:235-238 | the update loop over the actions gives the record `Enrich` defines |
| IamDependent.EnrichEach | fetch_iam_data_with_dependent.py:229-253 | every fetched record is enriched with the map of its own service, in collection order |
| IamDependent.EnrichKeepsKeys | fetch_iam_data_with_dependent.py:229-238 | enriching keeps every service id |
| IamDependent.EnrichedActions | fetch_iam_data_with_dependent.py:229-238 | after the merge an action's list is its non-empty map entry when its name is a key, and stays `[]` otherwise |
| IamDependent.FetchAllWithDependents | fetch_iam_data_with_dependent.py:198-270 | no document without a service list; otherwise the services are sorted and are the enriched fetched records, each listed id is in exactly one of `services` and `failedServices`, and `totalServices` counts the services |
| DependentPattern.MatchAt | fetch_iam_data_with_dependent.py:156-157 | an attempt at position `i` that succeeds gives a non-empty span starting at `i` |
| DependentPattern.MatchAtSound | fetch_iam_data_with_dependent.py:156-157 | a successful attempt is a match of the pattern |
| DependentPattern.MatchAtComplete | fetch_iam_data_with_dependent.py:156-157 | an attempt fails exactly when no match starts there |
| DependentPattern.MatchDetermined | fetch_iam_data_with_dependent.py:156-157 | a match starting at a position is unique: the greedy groups fix it |
| DependentPattern.Scan | fetch_iam_data_with_dependent.py:157 | the reported spans lie after `i`, in text order and without overlap |
| DependentPattern.ScanSound | fetch_iam_data_with_dependent.py:157 | every reported span is a match |
| DependentPattern.ScanMissesNothingFirst | fetch_iam_data_with_dependent.py:157 | no match starts before the first reported span, or anywhere when none is reported |
| DependentPattern.ScanMissesNothingBetween | fetch_iam_data_with_dependent.py:157 | no match starts between two consecutive reported spans |
| DependentPattern.ScanMissesNothingLast | fetch_iam_data_with_dependent.py:157 | no match starts after the last reported span |
| DependentPattern.Token | fetch_iam_data_with_dependent.py:158-159 | the two groups joined by a colon are the matched text, a `service:Action` token |
| DependentPattern.CollectTokens | fetch_iam_data_with_dependent.py:154-159 | the loop over the matches appends exactly the tokens `FindAll` lists, in match order |
| DependentPattern.FindAll | fetch_iam_data_with_dependent.py:154-159 | every extracted entry is a `service:Action` token; none when the text has no colon |
| Lists.PickAppend | fetch_iam_data.py:129-138 | an append loop over two runs of input is the loop over the first, then the second: input order is kept |
| Lists.PickMembers | fetch_iam_full.py:117-123 | a value is appended iff some visited element gives it |
| Lists.PickPermutation | fetch_iam_data.py:127-138 | visiting a reordering of the input appends a reordering of the same values |
| Lists.MapPermutation | fetch_iam_data.py:127-138 | mapping a reordering of the input gives a reordering of the mapped values |
| Lists.ConcatAppend | fetch_iam_full.py:91 | concatenating the per-table lists of two runs of tables is concatenating the results of each run |
| Lists.ConcatMembers | fetch_iam_data_with_dependent.py:130 | a value is in the concatenation iff some element gives it |
| Lists.MapMembers | fetch_iam_full.py:92 | a value is in the list comprehension iff some element gives it (here the stripped header texts) |
| Lists.PickFiltered | fetch_iam_full.py:98-100 | when a row is accepted exactly when it is kept, the appended values are those of the kept rows, one to one and in order |
| Html.Headers | fetch_iam_full.py:92 | one header text per `th` cell, each the stripped text of its cell |
| Html.BodyRows | fetch_iam_full.py:96 | every row but the header row, in order |

## Left out

- HTTP requests (`requests.get`, `requests.head`, `raise_for_status`, timeouts, redirects) are oracles given as parameters; their answers are not modelled.
- HTML parsing: BeautifulSoup's `find_all` and `get_text` are replaced by the parsed `Html.Page`. A table's header texts and rows are inputs to the model.
- The page-title regular expression of `fetch_iam_full.py` (line 80) is left out. It only affects the display name; the page's `title` field is its already-extracted group.
- Threads: `ThreadPoolExecutor` and `as_completed` become the `completed` parameter. Any reordering of the list is allowed, so results are stated as multisets.
- `time.sleep`, `time.strftime`, directory creation, `json.dump`, every `print` and the final statistics are left out. The timestamp is an input string.
- Fetching the service list: raising yields `None`, without modelling why. In the two JSON fetchers this is an uncaught exception that ends the script, and the model returns no document in the same way.
- `Text.Lower` lowers ASCII letters only. Python's `str.lower` also lowers non-ASCII letters; the texts involved are ASCII in practice.
- JSON `null` and non-boolean property values are left out. An absent key is `None`, and property flags are booleans.
- `ServiceReference.Action`: `name` is `None` when the JSON action has no `Name`. Python writes `null` there.
- `fetch_iam_full.py` keeps the defaults `""` and `"Unknown"` for the description and access level of a row with fewer than two or three cells (lines 104-109). Those branches are unreachable behind the four-cell guard, so the model has only the reachable branch.
- `Consolidation.SortBy`: sort stability is not stated. The records' ids are unique in practice, and sortedness plus permutation determine the result up to equal keys.
- Updating the action dictionaries and sorting `all_data` in place are modelled on values: the methods return the new lists. Aliasing between the dictionaries is not modelled.
- `fetch_iam_full.py` parses the GET body whatever its status code (line 72). The model does the same: `ScrapeService` succeeds for any status.
