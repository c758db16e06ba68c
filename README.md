# Event catalogue: a verified model

This project models the in-memory core of a small event-management web
application written in Python. Events have a name, a date, a location, a
description and a list of tags. It models four parts:

- the catalogue (`DataManager`), which creates, updates and deletes events
  in a dictionary keyed by id. It rejects a new or changed name that is
  already stored, ignoring case, but a rejected update still leaves its
  change in the store.
- the query pipeline (`utils.py`): search, tag filter and sort, which
  `get_all_events` composes, plus `validate_event_data`.
- the database record (`models.py`): its validation and the way its tag column,
  a comma-joined string, becomes a tag list and back.
- the JSON endpoints (`routes.py`): how a request body is read, how a
  comma-separated tag string is split into tags, and which HTTP status each
  outcome of the catalogue yields.

Modules, one per file:

| module | file | models |
|---|---|---|
| Wrappers | wrappers.dfy | `Option` |
| Strings | strings.dfy | ASCII `lower`, `title`, Python's `strip` whitespace set, `' '.join`, `split` on one character, substring test, the `'Z'` replacement, code-point string order |
| Seqs | seqs.dfy | list comprehensions (`Filter`, `Map`, `FlatMap`), sublists, lists without repeats |
| Sorting | sorting.dfy | Python's stable `sorted(..., key=..., reverse=...)` |
| Dates | dates.dfy | parsed dates, which may or may not carry a time zone; the two parsers are parameters |
| Records | records.dfy | the catalogue's event record (tags as a list) and the request dictionary |
| Models | models.dfy | the database `Event` row (tags as a comma-joined column) as a class |
| Utils | utils.dfy | `search_events`, `filter_events`, `sort_events`, `parse_date_for_sorting`, `validate_event_data` |
| DataManagement | data_manager.dfy | the `DataManager` class over `map<string, Event>` plus the id order |
| Routes | routes.dfy | tag-string parsing, reply selection, the create/get/update/delete/list handlers |

`data_manager.py` and `utils.py` both import the one `Event` class of
`models.py`, a database row whose `tags` column is a single string. Neither
file uses it as that class is written. They rely on an event with:

- a tag list;
- an id set when the event is built;
- an `update(**fields)` method;
- a one-argument `from_dict`.

No class in the source has that interface. The model therefore assumes one:
`Records.Event` is the value the catalogue stores, with exactly that
interface. `Models.Event` models the class of `models.py` as written, as a
class whose methods update their fields in place. The catalogue validates a
stored event with the rules of `models.py:81-108`, which is the only
`validate` in the source. The description is treated as present there,
because `create_event` defaults it to `''`.

Three behaviours of the code that are easy to overlook are kept as they are:

- the search also looks at the tags;
- the tag filter ignores case;
- an unparseable date sorts as `datetime.min`.

## Model

| member | source | states |
|---|---|---|
| Utils.NormalizeTerm | utils.py:10 | `term.lower().strip()` has no whitespace at either end, is empty exactly when the term is all whitespace, and holds only characters of the lowercased term. |
| Utils.SearchResult | utils.py:5-25 | An empty term returns the list unchanged. The result is a sublist in input order. An event is kept exactly when the lowercased, stripped term occurs in its lowercased name, location, description and tags joined by single spaces. |
| Utils.SearchEvents | utils.py:5-25 | The append loop over the events computes exactly `SearchResult`. |
| Utils.SearchResultIsFilter | utils.py:10-23 | For a non-empty term the search is the filter by "the normalised term occurs in the search text". |
| Utils.SearchMultiplicity | utils.py:13-23 | Each matching event is kept as often as it occurs in the input; a non-matching one not at all. |
| Utils.SearchTextShape | utils.py:15-20 | The search text is name, location, description and the space-joined tags, with one space between each. |
| Utils.MatchInOneField | utils.py:15-22 | A term occurring in any one lowercased field or tag keeps the event. |
| Utils.MatchAcrossFields | utils.py:15-22 | A term can match across a field boundary: "a b" matches an event named "a" at location "b", though neither field contains it. |
| Utils.EmptyTermMatchesAll | utils.py:22-23 | The empty string occurs in every search text, so filtering by it keeps every event. |
| Utils.WhitespaceTermKeepsAll | utils.py:7-23 | A term made only of whitespace strips to the empty string and keeps every event. |
| Utils.SearchIgnoresCase | utils.py:10-22 | Searching for the lowercased term gives the same result as searching for the term. |
| Utils.FilterEvents | utils.py:27-33 | An empty filter returns the list. Otherwise the result is a sublist in input order, and every kept event has a tag whose lowercase is the lowercased, stripped filter. |
| Utils.HasTagIff | utils.py:33 | The membership test holds exactly when some tag lowercases to the filter. |
| Utils.FilterMultiplicity | utils.py:29-33 | For a non-empty filter, each event with the tag is kept as often as it occurs in the input; one without it not at all. |
| Utils.FilterEventsMembership | utils.py:29-33 | For a non-empty filter, an event is in the result exactly when it is in the input and has a tag whose lowercase equals the normalised filter. |
| Utils.FilterIgnoresCase | utils.py:32-33 | Filtering by the lowercased tag gives the same result. |
| Utils.SearchAndFilterCommute | utils.py:5-33 | The search and the tag filter may be applied in either order. |
| Utils.ParseDateForSorting | utils.py:54-64 | A string with a `T` is read as an ISO timestamp after `Z` becomes `+00:00`; any other string is read as `YYYY-MM-DD`, giving a naive date. A rejected string becomes `datetime.min`, the naive instant with stamp 0. |
| Utils.Descending | utils.py:37 | The order is reversed exactly for a four-letter `desc` in any mix of upper and lower case. |
| Utils.DatesMixed | utils.py:49-52 | The date sort raises only when some date has a time zone and some other has none, which takes at least two events. |
| Utils.SortKeyFor | utils.py:40-52 | `name`, and a date sort over mixed dates (the `except` fallback), use the lowercased name; `location` uses the lowercased location, and `created_at` and `updated_at` use those timestamps. Any other `sort_by`, over dates of one kind, uses the parsed date. |
| Utils.SortEvents | utils.py:35-52 | The result is a permutation of the input. It is ordered by the lowercased name or location, by `created_at`, by `updated_at`, or otherwise by the parsed date. The order is non-increasing when `sort_order.lower() == 'desc'`. Mixing dates with and without a time zone makes the date comparison raise, and the fallback sorts by lowercased name. |
| Utils.SortEventsIsStable | utils.py:41-52 | Events with equal keys keep their input order, in both directions. |
| Utils.SortEventsDetermined | utils.py:35-52 | Any ordered list that keeps each key's events in input order is the result, so the contracts above determine it. |
| Utils.UnparseableDatesFirst | utils.py:48-64 | Sorted ascending by date, every event before one with an unparseable date also has the earliest date. |
| Utils.UnparseableDatesLast | utils.py:48-64 | Sorted descending by date, every event after one with an unparseable date also has the earliest date. |
| Utils.UnparseableBesideAwareSortsByName | utils.py:48-64 | An unparseable date (naive) next to a date with a time zone makes the date sort raise, so the events come out ordered by name. |
| Utils.NameRequiredMessage | utils.py:86 | The message for a missing name is "Name is required". |
| Utils.DateRequiredMessage | utils.py:86 | The message for a missing date is "Date is required". |
| Utils.LocationRequiredMessage | utils.py:86 | The message for a missing location is "Location is required". |
| Utils.FormatAndLengthErrorsAreReports | utils.py:88-103 | The date-format and length checks append, in order, the message of each check that fails. |
| Utils.DataErrorsAreFailedChecks | utils.py:80-105 | The error list holds the messages of exactly the failing checks. They come in this order: the required name, date and location, then the date format, then the name (over 100), location (over 200) and description (over 1000) lengths. |
| Utils.DataMessagesAreDistinct | utils.py:86-103 | Different checks append different messages. |
| Utils.DataReportedIffFails | utils.py:82-105 | Each check's message is in the list exactly when that check fails. |
| Utils.DataErrorsEmptyIff | utils.py:80-105 | The list is empty exactly when every check passes. |
| Utils.BlankDateReportedTwice | utils.py:84-93 | Any non-empty date made only of whitespace, which `fromisoformat` rejects, is reported both as missing and, because it is not empty, as badly formatted. |
| Utils.ValidateEventData | utils.py:78-105 | The method returns exactly the error list described above. |
| Utils.CheckRequired | utils.py:82-86 | The loop over `['name', 'date', 'location']` appends "<Field> is required" for each missing or blank field, in that order. |
| Utils.CheckFormatAndLengths | utils.py:88-103 | The date-format check runs only on a non-empty date; then come the three length checks. |
| Sorting.SortBy | utils.py:41-52 | `sorted` returns a permutation of its input, ordered by the key (reversed comparisons when `reverse`). |
| Sorting.SortByIsStable | utils.py:41-52 | `sorted` is stable, also with `reverse=True`. |
| Sorting.SortedStableUnique | utils.py:41-52 | Two ordered lists with the same elements per key, in the same order, are equal. |
| Sorting.DescendingIsReversedAscending | utils.py:41-52 | When no two keys are equal, sorting with `reverse=True` gives the ascending result backwards. |
| Models.BlankIffStripEmpty | models.py:85 | `not s or not s.strip()` holds exactly when every character is whitespace. |
| Models.PresenceErrorsAreReports | models.py:85-97 | The presence part appends, in order, the message of each presence or date check that fails. |
| Models.LengthErrorsAreReports | models.py:99-106 | The length part appends, in order, the message of each length check that fails. |
| Models.ValidationErrorsAreFailedChecks | models.py:81-108 | `validate` returns the messages of exactly the failing checks, in check order. |
| Models.ReportedIffFails | models.py:83-108 | Each check's message is in the list exactly when the check fails. |
| Models.MessagesAreDistinct | models.py:86-106 | Different checks append different messages. |
| Models.ValidationErrorsEmptyIff | models.py:83-108 | The list is empty exactly when the name, date and location are non-blank, the date parses, the name and location are at most 200 characters, and the description is absent or at most 1000. |
| Models.JoinTags | models.py:67 | `','.join(tags)` is the empty column exactly for `[]` and `['']`. |
| Models.SplitTags | models.py:53 | A NULL or empty column gives `[]`, never NULL, and no tag read back contains a comma. |
| Models.TagsRoundTrip | models.py:53-67 | Joining a tag list and splitting it back gives the list exactly when no tag contains a comma and the list is not `['']`. |
| Models.ColumnRoundTrip | models.py:53-67 | Splitting a column and joining it back gives the column. |
| Models.Event.constructor | models.py:62-69 | A new row holds the given fields, with no id and no timestamps yet. |
| Models.Event.FromDict | models.py:59-70 | Missing name, date, location or description raises (no row). Otherwise the row holds those values and the tags joined with `,`, defaulting to `[]`. |
| Models.Event.ToDict | models.py:46-57 | Every column is copied. The tag list is the split column: `[]` exactly when the column is NULL or empty. Joining it back gives the column. |
| Models.Event.UpdateFromDict | models.py:72-79 | Each of name, date, location and description keeps its old value unless its key is present. The tags are replaced only by a non-empty list. `updated_at` is always set. `id`, `user_id` and `created_at` never change. |
| Models.Event.Validate | models.py:81-108 | Returns exactly the error list of the row's fields. |
| Models.Event.CheckPresence | models.py:85-97 | A blank name, then a blank date (or, for a non-blank date, one that does not parse), then a blank location each append their message. |
| Models.Event.CheckLengths | models.py:99-106 | A name or location over 200 characters, and a non-empty description over 1000, each append their message. |
| DataManagement.DataManager.constructor | data_manager.py:11-14 | The catalogue starts empty. |
| DataManagement.DataManager.Values | data_manager.py:151 | `list(self.events.values())`: the stored events in insertion order. |
| DataManagement.DataManager.GetEvent | data_manager.py:92-94 | Some event exactly when the id is stored, and then the event stored under it. |
| DataManagement.DataManager.CreateEvent | data_manager.py:62-90 | Validation errors come back unchanged and store nothing. A name equal, ignoring case, to a stored name gives the duplicate error and stores nothing. Otherwise the new event is stored under its id and returned with no errors, and a new id is appended to the id order. |
| DataManagement.DataManager.HasName | data_manager.py:79-81 | The loop finds a stored name equal to the given one, ignoring case, exactly when there is one. |
| DataManagement.DataManager.UpdateEvent | data_manager.py:96-129 | For an unknown id: "Event not found", nothing changes. Otherwise the stored event takes the given fields first. It is then validated and checked against the other events' names. The event is returned only when neither check reports anything. The id order stays as it was. |
| DataManagement.DataManager.HasNameOtherThan | data_manager.py:117-121 | The loop finds another event with the name, ignoring case, exactly when there is one. |
| DataManagement.DataManager.DeleteEvent | data_manager.py:131-145 | Returns whether the id was stored, and removes exactly that key, from the events and from the id order. |
| DataManagement.Query | data_manager.py:151-162 | Search, tag filter and sort never list more events than there are, nor an event that is not in the input. |
| DataManagement.DataManager.GetAllEvents | data_manager.py:147-168 | Search (when given and non-empty), then tag filter (likewise), then sort, over the stored events. |
| DataManagement.DataManager.GetStats | data_manager.py:170-185 | `total_events` is the number of events. `all_tags` holds exactly the union of all events' tags, strictly increasing and so without repeats. `unique_tags` is its length. |
| DataManagement.SortedList | data_manager.py:181 | `sorted(list(s))` of a set: its elements, each once, in increasing order. |
| DataManagement.ListOf | data_manager.py:181 | `list(s)` of a set holds each element once. |
| DataManagement.TagsOfMembership | data_manager.py:174-176 | A tag is collected exactly when some event in the list carries it. |
| DataManagement.TagsOfStored | data_manager.py:174-176 | The tags collected from the events in id order are exactly the union of the stored events' tags. |
| DataManagement.NewEvent | data_manager.py:65-71 | The built event has the given id and timestamps, the request's fields with their defaults, and its tags or `[]`. |
| DataManagement.CreateErrors | data_manager.py:73-81 | A create reports nothing exactly when the fields validate and no stored name equals the new one ignoring case. Otherwise it reports the validation errors or the single duplicate message. |
| DataManagement.Created | data_manager.py:83 | Without errors, the keys become the old keys plus the new id, which holds the new event. With errors nothing changes. No other entry changes in either case. |
| DataManagement.Updated | data_manager.py:104-110 | Every field present in the request takes its value. The id and both timestamps stay. |
| DataManagement.Applied | data_manager.py:99-110 | The keys are unchanged. Only the event under the id changes, to the updated one. |
| DataManagement.UpdateErrors | data_manager.py:99-121 | An unknown id reports "Event not found". For a known id nothing is reported exactly when the updated event validates and no other event has its name ignoring case. |
| DataManagement.CreateRejections | data_manager.py:73-81 | A rejected create changes nothing. A stored name, ignoring case, is rejected. Validation errors are returned as they are. |
| DataManagement.CreateAddsOne | data_manager.py:83-86 | A successful create adds exactly one key, the new id, with the new event, and no other entry changes. |
| DataManagement.CreateKeepsNamesDistinct | data_manager.py:78-83 | Creates keep the stored names pairwise distinct ignoring case. |
| DataManagement.UpdateUnknown | data_manager.py:99-100 | An unknown id gives `["Event not found"]` and leaves the store as it was. |
| DataManagement.UpdateChangesOnlyGiven | data_manager.py:104-110 | Only the fields present in the request change. The id and both timestamps never change. An empty request changes nothing. |
| DataManagement.UpdateIdempotent | data_manager.py:104-110 | Applying the same update twice is applying it once. |
| DataManagement.SuccessfulUpdateKeepsNamesDistinct | data_manager.py:113-125 | An update that reports no error keeps the names pairwise distinct ignoring case. |
| DataManagement.RejectedUpdateStaysApplied | data_manager.py:110-121 | With dates "2024-01-01", which `fromisoformat` accepts, renaming "y" to "X" beside "x" is rejected as a duplicate name. The change still stays in the store, leaving two events with the same name. |
| DataManagement.RenameIntoDuplicate | data_manager.py:110-121 | The same holds for any non-blank date the ISO parser accepts. |
| DataManagement.DeleteKeepsNamesDistinct | data_manager.py:134-141 | Deletes keep the names pairwise distinct. |
| DataManagement.ValuesDistinct | data_manager.py:151 | The stored events are listed once each. |
| DataManagement.QueryMembership | data_manager.py:151-162 | An event is listed as often as it is stored exactly when it matches the given search term and carries the given tag; otherwise not at all. |
| DataManagement.QueryListsStoredEventsOnce | data_manager.py:151-164 | Every listed event is stored, and none is listed twice. |
| Routes.ParseTagString | routes.py:79 | At most one tag per comma-separated piece, and no tag is empty. |
| Routes.ParsedTagsAreClean | routes.py:78-79 | Every tag parsed from a string is non-empty, has no surrounding whitespace and contains no comma. |
| Routes.ParseJoinedTags | routes.py:78-79 | Such tags joined with commas are parsed back to the same list, in order. |
| Routes.ParseTagStringIdempotent | routes.py:78-79 | Parsing the parser's output again, joined with commas, changes nothing. |
| Routes.RequestTags | routes.py:77-79 | A string `tags` value is parsed; a list is passed on untouched; an absent one stays absent. |
| Routes.CreateResultReply | routes.py:83-90 | Errors give 400 with the errors; none gives 201 with the event. |
| Routes.UpdateResultReply | routes.py:126-139 | Errors give 400; otherwise a missing event gives 404, and an event gives 200 with it. |
| Routes.DeleteResultReply | routes.py:146-154 | False gives 404, True gives 200. |
| Routes.GetEventReply | routes.py:99-107 | 404 exactly when no event has the id; otherwise 200 with the event. |
| Routes.CreateEvent | routes.py:69-94 | No data gives 400 before the catalogue is called. Otherwise the string tags are parsed, the catalogue creates, and the reply follows its result. The id order gains the new id only when the create succeeds with a fresh id. |
| Routes.UpdateEvent | routes.py:112-140 | The same for updates: the reply and the new events follow the catalogue's update. The id order does not change. |
| Routes.DeleteEvent | routes.py:142-158 | The reply follows whether the catalogue deleted the event. The id is removed from the events and from the id order, and the order of the rest is kept. |
| Routes.GetEvents | routes.py:44-63 | The query arguments default to no search, sorting by date ascending, and no tag. The reply lists the query result with its length as the total. |
| Routes.NoDataRejected | routes.py:73-75 | A missing or empty body gets 400 from create and update and never reaches the catalogue. |
| Routes.CreateStatus | routes.py:72-90 | Create answers 400 exactly when the body is empty or the catalogue reports errors, and 201 otherwise. |
| Routes.CreateReplyAgreesWithStore | routes.py:83-90 | A 201 reply carries the event now stored under the new id; after a 400 the catalogue is unchanged. |
| Routes.UpdateNeverNotFound | routes.py:124-130 | Update never answers 404. An unknown id comes back from the catalogue as the error "Event not found", which is answered with 400. |
| Routes.UpdateReplyAgreesWithStore | routes.py:124-139 | A 200 reply carries the event now stored under that id. |
| Routes.RejectedUpdateStore | routes.py:124-127 | After any non-empty update of a known id, the changed event is in the catalogue, even if the reply is 400. |
| Routes.DeleteStatus | routes.py:146-154 | 404 exactly when no event has the id; afterwards none has it. |

## Left out

- JSON file persistence (`initialize_storage`, `load_events`, `save_events`, data_manager.py:16-60). Saving is file I/O, so the model simply does not save.
- Logging everywhere: it has no effect on results.
- The catch-all `except` branches that return "Failed to create event", "Failed to update event", `False`, `[]` or an empty statistics dictionary, and the 500 replies of routes.py: no modelled path reaches these branches.
- Flask: routing, `request`, `jsonify`, `render_template`, `flash`, the index page, `/api/stats` (which passes `get_stats` through) and the error handlers. `app.py` and `config.py` are not part of this model.
- The database columns and relationships, and the `User` class with its password hashing (foreign library calls).
- Real date parsing: `datetime.fromisoformat` and `strptime` are the `DateParsers` parameters. `format_date_display` (utils.py:66-76) only formats for display and is left out.
- The clock and the id generator: `now` and `newId` are parameters.
- Full Unicode case folding: `lower` and `title` are ASCII only.
- JSON values of other types: a text field holding a number, a list or null, a body that is not an object, and a `tags` value other than a string or a list. `otherKeys` in `Routes.Body` only counts keys, so a read key holding null counts toward "the body is not empty" but is otherwise absent.
- Models.Event.FromDict and Models.Event.UpdateFromDict take the tags as a list only. Given a string, models.py:67 and models.py:77 would join its characters (`"a,b"` becomes `"a,,,b"`); the model does not cover that case. Only `Routes` reads a string `tags` value.
- Models.Event.UpdateFromDict: a key present with a null value is modelled as absent, not as setting the column to NULL.
- DataManagement.DataManager.UpdateEvent: `Event.update` exists nowhere in the source. The assumed event's `update` sets exactly the given fields and leaves `updated_at` alone.
- With the `Event` of `models.py` that the code actually imports, the store would fail. `Event.from_dict(event_data)` at data_manager.py:34 lacks its `user_id` argument and raises. `self.events[event.id]` at data_manager.py:83 keys every new event under `None`, since that id is assigned only by the database. `event.update(**update_fields)` at data_manager.py:110 raises `AttributeError`, so every update of a known id would answer "Failed to update event". The model follows the assumed interface instead and does not capture these failures.
- DataManagement.DataManager.CreateEvent: an id that is already stored is overwritten (line 83 does so); ids are assumed fresh but this is not required.
