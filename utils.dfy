/**
 * The query pipeline over the catalogue's events: the free-text search, the
 * tag filter, the sort by one field, the date key of the sort, and the
 * validation of request data.
 */
module Utils {
  import opened Wrappers
  import opened Strings
  import opened Seqs
  import opened Sorting
  import opened Dates
  import opened Records
  import Models

  // ---------------------------------------------------------------- search

  /**
   * The text a search looks in: the lowercased name, location, description and
   * space-joined tags, joined by single spaces.
   */
  function SearchText(e: Event): (text: string) {
    Join(" ", [Lower(e.name), Lower(e.location), Lower(e.description), Lower(Join(" ", e.tags))])
  }

  /** `term in searchable_text`. */
  predicate Matches(e: Event, term: string) {
    Contains(SearchText(e), term)
  }

  function MatchesTerm(term: string): Event -> bool {
    e => Matches(e, term)
  }

  /** `search_term.lower().strip()`. */
  function NormalizeTerm(term: string): (r: string)
    ensures r == [] || (!IsSpace(r[0]) && !IsSpace(r[|r| - 1]))
    ensures r == [] <==> AllSpace(term)
    ensures forall c :: c in r ==> c in Lower(term)
  {
    LowerKeepsSpaces(term);
    Strip(Lower(term))
  }

  /** What `search_events(events, term)` returns. */
  function SearchResult(events: seq<Event>, term: string): (r: seq<Event>)
    ensures term == "" ==> r == events
    ensures IsSubsequence(r, events)
    ensures forall e :: e in r <==> e in events && (term == "" || Matches(e, NormalizeTerm(term)))
  {
    if term == "" then SubsequenceRefl(events); events
    else
      var t := NormalizeTerm(term);
      FilterIsSubsequence(events, MatchesTerm(t));
      assert forall e :: e in Filter(events, MatchesTerm(t)) <==> e in events && Matches(e, t) by {
        forall e ensures e in Filter(events, MatchesTerm(t)) <==> e in events && Matches(e, t) {
          FilterMembership(events, MatchesTerm(t), e);
        }
      }
      Filter(events, MatchesTerm(t))
  }

  /** `search_events`: the events are tried one by one and the matching ones appended. */
  method SearchEvents(events: seq<Event>, searchTerm: string) returns (r: seq<Event>)
    ensures r == SearchResult(events, searchTerm)
  {
    if searchTerm == "" {
      return events;
    }
    var term := NormalizeTerm(searchTerm);
    r := [];
    for i := 0 to |events|
      invariant r == Filter(events[..i], MatchesTerm(term))
    {
      var event := events[i];
      assert events[..i + 1] == events[..i] + [event];
      FilterAppendOne(events[..i], event, MatchesTerm(term));
      var text := SearchText(event);
      assert MatchesTerm(term)(event) == Contains(text, term);
      if Contains(text, term) {
        r := r + [event];
      }
    }
    assert events[..|events|] == events;
    SearchResultIsFilter(events, searchTerm);
  }

  lemma SearchResultIsFilter(events: seq<Event>, term: string)
    requires term != ""
    ensures SearchResult(events, term) == Filter(events, MatchesTerm(NormalizeTerm(term)))
  {
  }

  /** Each kept event is kept as often as it occurs in the input; the others not at all. */
  lemma SearchMultiplicity(events: seq<Event>, term: string, e: Event)
    requires term != ""
    ensures multiset(SearchResult(events, term))[e]
            == if Matches(e, NormalizeTerm(term)) then multiset(events)[e] else 0
  {
    FilterCount(events, MatchesTerm(NormalizeTerm(term)), e);
  }

  lemma {:induction false} LowerAppend(a: string, b: string)
    ensures Lower(a + b) == Lower(a) + Lower(b)
  {
  }

  /** A term found in one tag is found in the lowercased space-joined tags. */
  lemma {:induction false} ContainsInJoinedTags(tags: seq<string>, i: int, term: string)
    requires 0 <= i < |tags| && Contains(Lower(tags[i]), term)
    ensures Contains(Lower(Join(" ", tags)), term)
    decreases |tags|
  {
    if |tags| == 1 {
    } else {
      var rest := Join(" ", tags[1..]);
      LowerAppend(tags[0] + " ", rest);
      LowerAppend(tags[0], " ");
      if i == 0 {
        ContainsInLeft(Lower(tags[0]), Lower(" "), term);
        ContainsInLeft(Lower(tags[0]) + Lower(" "), Lower(rest), term);
      } else {
        ContainsInJoinedTags(tags[1..], i - 1, term);
        ContainsInRight(Lower(tags[0]) + Lower(" "), Lower(rest), term);
      }
    }
  }

  /** The search text spelled out: the four lowercased parts separated by single spaces. */
  lemma SearchTextShape(e: Event)
    ensures SearchText(e)
            == Lower(e.name) + " " + (Lower(e.location) + " " + (Lower(e.description) + " " + Lower(Join(" ", e.tags))))
  {
    var n, l, d, t := Lower(e.name), Lower(e.location), Lower(e.description), Lower(Join(" ", e.tags));
    assert [n, l, d, t][1..] == [l, d, t];
    assert [l, d, t][1..] == [d, t];
    assert [d, t][1..] == [t];
    assert Join(" ", [t]) == t;
    assert Join(" ", [d, t]) == d + " " + t;
    assert Join(" ", [l, d, t]) == l + " " + (d + " " + t);
  }

  lemma ContainsEitherSide(a: string, b: string, term: string)
    requires Contains(a, term) || Contains(b, term)
    ensures Contains(a + " " + b, term)
  {
    if Contains(a, term) {
      ContainsInLeft(a, " " + b, term);
      assert a + " " + b == a + (" " + b);
    } else {
      ContainsInRight(a + " ", b, term);
    }
  }

  /** A term found in any single field (or tag) keeps the event. */
  lemma MatchInOneField(e: Event, term: string)
    requires Contains(Lower(e.name), term) || Contains(Lower(e.location), term)
             || Contains(Lower(e.description), term)
             || exists i :: 0 <= i < |e.tags| && Contains(Lower(e.tags[i]), term)
    ensures Matches(e, term)
  {
    var n, l, d, t := Lower(e.name), Lower(e.location), Lower(e.description), Lower(Join(" ", e.tags));
    SearchTextShape(e);
    if !Contains(n, term) && !Contains(l, term) && !Contains(d, term) {
      var i :| 0 <= i < |e.tags| && Contains(Lower(e.tags[i]), term);
      ContainsInJoinedTags(e.tags, i, term);
    }
    if Contains(d, term) || Contains(t, term) {
      ContainsEitherSide(d, t, term);
    }
    if Contains(l, term) || Contains(d + " " + t, term) {
      ContainsEitherSide(l, d + " " + t, term);
    }
    ContainsEitherSide(n, l + " " + (d + " " + t), term);
  }

  /** Because the fields are joined, a term can match across the boundary of two fields. */
  lemma MatchAcrossFields()
    ensures var e := Event("1", "a", "2025-01-01", "b", "", [], 0, 0);
            Matches(e, "a b") && !Contains("a", "a b") && !Contains("b", "a b")
  {
    var e := Event("1", "a", "2025-01-01", "b", "", [], 0, 0);
    SearchTextShape(e);
    assert Lower("") == "" && Lower("a") == "a" && Lower("b") == "b";
    assert SearchText(e) == "a b  ";
    assert "a b" <= "a b  ";
  }

  lemma EmptyTermMatchesAll(events: seq<Event>)
    ensures Filter(events, MatchesTerm("")) == events
  {
    forall i | 0 <= i < |events| ensures Matches(events[i], "") {
      assert "" <= SearchText(events[i]);
    }
    FilterAll(events, MatchesTerm(""));
  }

  /** A non-empty term made only of whitespace strips to nothing and keeps every event. */
  lemma WhitespaceTermKeepsAll(events: seq<Event>, term: string)
    requires AllSpace(term)
    ensures SearchResult(events, term) == events
  {
    if term != "" {
      LowerKeepsSpaces(term);
      assert NormalizeTerm(term) == "";
      EmptyTermMatchesAll(events);
    }
  }

  /** The search ignores the case of the term. */
  lemma SearchIgnoresCase(events: seq<Event>, term: string)
    ensures SearchResult(events, Lower(term)) == SearchResult(events, term)
  {
    LowerIdempotent(term);
    assert NormalizeTerm(Lower(term)) == NormalizeTerm(term);
  }

  // ---------------------------------------------------------------- tag filter

  /** `[tag.lower() for tag in tags]`. */
  function LowerAll(tags: seq<string>): (r: seq<string>)
    ensures |r| == |tags| && forall i :: 0 <= i < |tags| ==> r[i] == Lower(tags[i])
  {
    if tags == [] then [] else [Lower(tags[0])] + LowerAll(tags[1..])
  }

  predicate HasTag(e: Event, tag: string) {
    tag in LowerAll(e.tags)
  }

  function HasTagFn(tag: string): Event -> bool {
    e => HasTag(e, tag)
  }

  /** `filter_events(events, tag_filter)`. */
  function FilterEvents(events: seq<Event>, tagFilter: string): (r: seq<Event>)
    ensures tagFilter == "" ==> r == events
    ensures IsSubsequence(r, events)
    ensures tagFilter != "" ==> forall i :: 0 <= i < |r| ==> HasTag(r[i], NormalizeTerm(tagFilter))
  {
    if tagFilter == "" then SubsequenceRefl(events); events
    else
      var t := NormalizeTerm(tagFilter);
      FilterIsSubsequence(events, HasTagFn(t));
      Filter(events, HasTagFn(t))
  }

  lemma HasTagIff(e: Event, tag: string)
    ensures HasTag(e, tag) <==> exists j :: 0 <= j < |e.tags| && Lower(e.tags[j]) == tag
  {
    if HasTag(e, tag) {
      var j :| 0 <= j < |LowerAll(e.tags)| && LowerAll(e.tags)[j] == tag;
      assert Lower(e.tags[j]) == tag;
    }
    if exists j :: 0 <= j < |e.tags| && Lower(e.tags[j]) == tag {
      var j :| 0 <= j < |e.tags| && Lower(e.tags[j]) == tag;
      assert LowerAll(e.tags)[j] == tag;
    }
  }

  /** Exactly the events with a tag equal, ignoring case, to the stripped filter are kept. */
  lemma FilterEventsMembership(events: seq<Event>, tagFilter: string, e: Event)
    requires tagFilter != ""
    ensures e in FilterEvents(events, tagFilter) <==>
            e in events && exists j :: 0 <= j < |e.tags| && Lower(e.tags[j]) == NormalizeTerm(tagFilter)
  {
    var t := NormalizeTerm(tagFilter);
    FilterMembership(events, HasTagFn(t), e);
    HasTagIff(e, t);
  }

  /** Each event with the tag is kept as often as it occurs in the input; the others not at all. */
  lemma FilterMultiplicity(events: seq<Event>, tagFilter: string, e: Event)
    requires tagFilter != ""
    ensures multiset(FilterEvents(events, tagFilter))[e]
            == if HasTag(e, NormalizeTerm(tagFilter)) then multiset(events)[e] else 0
  {
    FilterCount(events, HasTagFn(NormalizeTerm(tagFilter)), e);
  }

  /** The tag filter ignores the case of the filter. */
  lemma FilterIgnoresCase(events: seq<Event>, tagFilter: string)
    ensures FilterEvents(events, Lower(tagFilter)) == FilterEvents(events, tagFilter)
  {
    LowerIdempotent(tagFilter);
    assert NormalizeTerm(Lower(tagFilter)) == NormalizeTerm(tagFilter);
  }

  /** Searching and tag filtering may be done in either order. */
  lemma SearchAndFilterCommute(events: seq<Event>, term: string, tagFilter: string)
    ensures FilterEvents(SearchResult(events, term), tagFilter) == SearchResult(FilterEvents(events, tagFilter), term)
  {
    if term != "" && tagFilter != "" {
      FilterCommute(events, MatchesTerm(NormalizeTerm(term)), HasTagFn(NormalizeTerm(tagFilter)));
    }
  }

  // ---------------------------------------------------------------- dates and sorting

  /** Whether the parser that `parse_date_for_sorting` picks for `s` rejects it. */
  predicate Unparseable(p: DateParsers, s: string) {
    if 'T' in s then p.fromIso(ReplaceZ(s)).None? else p.ymd(s).None?
  }

  /**
   * `parse_date_for_sorting`: strings with a `T` are read as ISO timestamps,
   * the others as `YYYY-MM-DD`; a rejected string becomes `datetime.min`.
   */
  function ParseDateForSorting(p: DateParsers, s: string): (d: Instant)
    ensures Unparseable(p, s) ==> d == MinInstant
    ensures !Unparseable(p, s) && 'T' in s ==> Some(d) == p.fromIso(ReplaceZ(s))
    ensures !Unparseable(p, s) && 'T' !in s ==> d == Instant(p.ymd(s).value, false)
  {
    if 'T' in s then
      match p.fromIso(ReplaceZ(s))
      case Some(d) => d
      case None => MinInstant
    else
      match p.ymd(s)
      case Some(n) => Instant(n, false)
      case None => MinInstant
  }

  /** `sort_order.lower() == 'desc'`. */
  predicate Descending(sortOrder: string)
    ensures Descending(sortOrder) <==>
              |sortOrder| == 4 && sortOrder[0] in "dD" && sortOrder[1] in "eE" &&
              sortOrder[2] in "sS" && sortOrder[3] in "cC"
  {
    Lower(sortOrder) == "desc"
  }

  function NameKey(e: Event): SortKey { Text(Lower(e.name)) }

  function DateKey(p: DateParsers): Event -> SortKey {
    (e: Event) => Stamp(ParseDateForSorting(p, e.date).stamp)
  }

  /**
   * Python refuses to compare an aware date with a naive one. A sort compares
   * every pair of neighbours it outputs, so the date sort raises as soon as the
   * events' dates are of both kinds; `sort_events` then sorts by name.
   */
  predicate DatesMixed(events: seq<Event>, p: DateParsers)
    ensures DatesMixed(events, p) ==> |events| >= 2
  {
    exists i, j :: 0 <= i < |events| && 0 <= j < |events| &&
      ParseDateForSorting(p, events[i].date).aware && !ParseDateForSorting(p, events[j].date).aware
  }

  /** The key `sort_events` ends up sorting by. */
  function SortKeyFor(events: seq<Event>, sortBy: string, p: DateParsers): (key: Event -> SortKey)
    ensures sortBy == "location" ==> forall e :: key(e) == Text(Lower(e.location))
    ensures sortBy == "created_at" ==> forall e :: key(e) == Stamp(e.createdAt)
    ensures sortBy == "updated_at" ==> forall e :: key(e) == Stamp(e.updatedAt)
    ensures sortBy == "name" || (sortBy !in ["location", "created_at", "updated_at"] && DatesMixed(events, p))
            ==> forall e :: key(e) == NameKey(e)
    ensures sortBy !in ["name", "location", "created_at", "updated_at"] && !DatesMixed(events, p)
            ==> forall e :: key(e) == DateKey(p)(e)
  {
    if sortBy == "name" then (e: Event) => NameKey(e)
    else if sortBy == "location" then (e: Event) => Text(Lower(e.location))
    else if sortBy == "created_at" then (e: Event) => Stamp(e.createdAt)
    else if sortBy == "updated_at" then (e: Event) => Stamp(e.updatedAt)
    else if DatesMixed(events, p) then (e: Event) => NameKey(e)
    else DateKey(p)
  }

  /** `sort_events(events, sort_by, sort_order)`. */
  function SortEvents(events: seq<Event>, sortBy: string, sortOrder: string, p: DateParsers): (r: seq<Event>)
    ensures multiset(r) == multiset(events)
    ensures Sorted(r, SortKeyFor(events, sortBy, p), Descending(sortOrder))
  {
    SortBy(events, SortKeyFor(events, sortBy, p), Descending(sortOrder))
  }

  /** Events with equal keys keep their input order, in both directions. */
  lemma SortEventsIsStable(events: seq<Event>, sortBy: string, sortOrder: string, p: DateParsers, k: SortKey)
    ensures var key := SortKeyFor(events, sortBy, p);
            WithKey(SortEvents(events, sortBy, sortOrder, p), key, k) == WithKey(events, key, k)
  {
    SortByIsStable(events, SortKeyFor(events, sortBy, p), Descending(sortOrder), k);
  }

  /** The sorted, stable permutation is unique, so these facts determine the result. */
  lemma SortEventsDetermined(events: seq<Event>, sortBy: string, sortOrder: string, p: DateParsers, r: seq<Event>)
    requires Sorted(r, SortKeyFor(events, sortBy, p), Descending(sortOrder))
    requires forall k :: WithKey(r, SortKeyFor(events, sortBy, p), k) == WithKey(events, SortKeyFor(events, sortBy, p), k)
    ensures r == SortEvents(events, sortBy, sortOrder, p)
  {
    var key := SortKeyFor(events, sortBy, p);
    forall k ensures WithKey(r, key, k) == WithKey(SortEvents(events, sortBy, sortOrder, p), key, k) {
      SortEventsIsStable(events, sortBy, sortOrder, p, k);
    }
    SortedStableUnique(r, SortEvents(events, sortBy, sortOrder, p), key, Descending(sortOrder));
  }

  /** Sorted by a date key, every event before an unparseable date has the earliest key too. */
  lemma UnparseableDatesFirst(events: seq<Event>, sortBy: string, sortOrder: string, p: DateParsers, i: int, j: int)
    requires sortBy !in ["name", "location", "created_at", "updated_at"] && !DatesMixed(events, p)
    requires !Descending(sortOrder)
    requires var r := SortEvents(events, sortBy, sortOrder, p);
             0 <= i < j < |r| && Unparseable(p, r[j].date)
    ensures ParseDateForSorting(p, SortEvents(events, sortBy, sortOrder, p)[i].date).stamp == 0
  {
  }

  /** Sorted descending by a date key, every event after an unparseable date has the earliest key too. */
  lemma UnparseableDatesLast(events: seq<Event>, sortBy: string, sortOrder: string, p: DateParsers, i: int, j: int)
    requires sortBy !in ["name", "location", "created_at", "updated_at"] && !DatesMixed(events, p)
    requires Descending(sortOrder)
    requires var r := SortEvents(events, sortBy, sortOrder, p);
             0 <= i < j < |r| && Unparseable(p, r[i].date)
    ensures ParseDateForSorting(p, SortEvents(events, sortBy, sortOrder, p)[j].date).stamp == 0
  {
  }

  /**
   * An unparseable date is naive, so next to a time-zone-aware date it makes the
   * date sort fail, and the events come out sorted by name.
   */
  lemma UnparseableBesideAwareSortsByName(events: seq<Event>, sortBy: string, sortOrder: string,
                                          p: DateParsers, i: int, j: int)
    requires sortBy !in ["name", "location", "created_at", "updated_at"]
    requires 0 <= i < |events| && 0 <= j < |events|
    requires Unparseable(p, events[i].date) && ParseDateForSorting(p, events[j].date).aware
    ensures Sorted(SortEvents(events, sortBy, sortOrder, p), e => NameKey(e), Descending(sortOrder))
  {
    assert DatesMixed(events, p);
  }

  // ---------------------------------------------------------------- request validation

  /** The checks of `validate_event_data`. */
  datatype DataCheck = Required(field: string) | InvalidDate | NameOver100 | LocationOver200 | DescriptionOver1000

  const RequiredFields := ["name", "date", "location"]

  const RequiredChecks := [Required("name"), Required("date"), Required("location")]

  const FormatChecks := [InvalidDate, NameOver100, LocationOver200, DescriptionOver1000]

  /** The checks in the order `validate_event_data` runs them. */
  const DataCheckOrder := RequiredChecks + FormatChecks

  /** `data.get(field, '')`. */
  function Get(data: EventData, field: string): string {
    Field(data, field).GetOr("")
  }

  function DataMessage(c: DataCheck): string {
    match c
    case Required(field) => Title(field) + " is required"
    case InvalidDate => "Invalid date format"
    case NameOver100 => "Event name must be less than 100 characters"
    case LocationOver200 => "Location must be less than 200 characters"
    case DescriptionOver1000 => "Description must be less than 1000 characters"
  }

  predicate DataFails(data: EventData, p: DateParsers, c: DataCheck) {
    match c
    case Required(field) => Models.Blank(Get(data, field))
    case InvalidDate => Get(data, "date") != "" && !Models.IsoParses(p, Get(data, "date"))
    case NameOver100 => |Get(data, "name")| > 100
    case LocationOver200 => |Get(data, "location")| > 200
    case DescriptionOver1000 => |Get(data, "description")| > 1000
  }

  function DataFailsOn(data: EventData, p: DateParsers): DataCheck -> bool {
    c => DataFails(data, p, c)
  }

  /** What check `c` appends: its message when it fails, nothing otherwise. */
  function DataReport(data: EventData, p: DateParsers, c: DataCheck): seq<string> {
    if DataFails(data, p, c) then [DataMessage(c)] else []
  }

  function DataReportOn(data: EventData, p: DateParsers): DataCheck -> seq<string> {
    c => DataReport(data, p, c)
  }

  /** What the checks after the required-field loop append. */
  function FormatAndLengthErrors(data: EventData, p: DateParsers): seq<string> {
    DataReport(data, p, InvalidDate) + DataReport(data, p, NameOver100)
    + DataReport(data, p, LocationOver200) + DataReport(data, p, DescriptionOver1000)
  }

  /** The error list `validate_event_data` returns. */
  function DataErrors(data: EventData, p: DateParsers): seq<string> {
    FlatMap(RequiredChecks, DataReportOn(data, p)) + FormatAndLengthErrors(data, p)
  }

  lemma FormatAndLengthErrorsAreReports(data: EventData, p: DateParsers)
    ensures FormatAndLengthErrors(data, p) == FlatMap(FormatChecks, DataReportOn(data, p))
  {
    var cs, f := FormatChecks, DataReportOn(data, p);
    assert cs[..1][..0] == [] && cs[..2][..1] == cs[..1] && cs[..3][..2] == cs[..2] && cs[..4] == cs;
    assert cs[..4][..3] == cs[..3];
    assert FlatMap([], f) == [];
    var r1 := FlatMap(cs[..1], f);
    assert r1 == DataReport(data, p, InvalidDate);
    var r2 := FlatMap(cs[..2], f);
    assert r2 == r1 + DataReport(data, p, NameOver100);
    var r3 := FlatMap(cs[..3], f);
    assert r3 == r2 + DataReport(data, p, LocationOver200);
  }

  /**
   * The errors are the messages of exactly the failing checks, in check order:
   * first the missing required fields (name, date, location), then the date
   * format, then the three lengths.
   */
  lemma DataErrorsAreFailedChecks(data: EventData, p: DateParsers)
    ensures DataErrors(data, p) == Map(Filter(DataCheckOrder, DataFailsOn(data, p)), DataMessage)
  {
    FormatAndLengthErrorsAreReports(data, p);
    FlatMapAppend(RequiredChecks, FormatChecks, DataReportOn(data, p));
    FlatMapOfGuarded(DataCheckOrder, DataReportOn(data, p), DataFailsOn(data, p), DataMessage);
  }

  lemma NameRequiredMessage()
    ensures DataMessage(Required("name")) == "Name is required"
  {
    assert Title("name") == "Name";
  }

  lemma DateRequiredMessage()
    ensures DataMessage(Required("date")) == "Date is required"
  {
    assert Title("date") == "Date";
  }

  lemma LocationTitle()
    ensures Title("location") == "Location"
  {
  }

  lemma LocationRequiredMessage()
    ensures DataMessage(Required("location")) == "Location is required"
  {
    LocationTitle();
  }

  /** The length of each check's message. */
  function MessageLength(c: DataCheck): nat {
    match c
    case Required(field) => |field| + 12
    case InvalidDate => 19
    case NameOver100 => 43
    case LocationOver200 => 41
    case DescriptionOver1000 => 45
  }

  lemma MessageHasLength(c: DataCheck)
    ensures |DataMessage(c)| == MessageLength(c)
  {
  }

  lemma RequiredInitial(field: string)
    requires field != []
    ensures DataMessage(Required(field))[0] == UpperChar(field[0])
  {
    var t := Title(field);
    assert (t + " is required")[0] == t[0];
  }

  lemma LengthsAreDistinct(i: int, j: int)
    requires 0 <= i < |DataCheckOrder| && 0 <= j < |DataCheckOrder| && i != j
    requires !((i == 0 && j == 1) || (i == 1 && j == 0))
    ensures MessageLength(DataCheckOrder[i]) != MessageLength(DataCheckOrder[j])
  {
    var o := DataCheckOrder;
    assert o[0] == Required("name") && o[1] == Required("date") && o[2] == Required("location");
  }

  lemma MessagesDiffer(c: DataCheck, d: DataCheck)
    requires |DataMessage(c)| != |DataMessage(d)| || DataMessage(c)[0] != DataMessage(d)[0]
    ensures DataMessage(c) != DataMessage(d)
  {
  }

  /** Different checks have different messages. */
  lemma DataMessagesAreDistinct(i: int, j: int)
    requires 0 <= i < |DataCheckOrder| && 0 <= j < |DataCheckOrder| && i != j
    ensures DataMessage(DataCheckOrder[i]) != DataMessage(DataCheckOrder[j])
  {
    var c, d := DataCheckOrder[i], DataCheckOrder[j];
    if (i == 0 && j == 1) || (i == 1 && j == 0) {
      assert {c, d} == {Required("name"), Required("date")};
      RequiredInitial("name");
      RequiredInitial("date");
    } else {
      LengthsAreDistinct(i, j);
      MessageHasLength(c);
      MessageHasLength(d);
    }
    MessagesDiffer(c, d);
  }

  /** Among checks of `validate_event_data`, a message is listed exactly when its check is. */
  lemma MessageListedIffCheckListed(kept: seq<DataCheck>, k: int)
    requires forall x :: x in kept ==> x in DataCheckOrder
    requires 0 <= k < |DataCheckOrder|
    ensures DataMessage(DataCheckOrder[k]) in Map(kept, DataMessage) <==> DataCheckOrder[k] in kept
  {
    var c := DataCheckOrder[k];
    if DataMessage(c) in Map(kept, DataMessage) {
      var i :| 0 <= i < |kept| && Map(kept, DataMessage)[i] == DataMessage(c);
      assert kept[i] in DataCheckOrder;
      var a :| 0 <= a < |DataCheckOrder| && DataCheckOrder[a] == kept[i];
      if a != k {
        DataMessagesAreDistinct(a, k);
      }
    }
    if c in kept {
      var i :| 0 <= i < |kept| && kept[i] == c;
      assert Map(kept, DataMessage)[i] == DataMessage(c);
    }
  }

  /** The message of check `k` is in the error list exactly when that check fails. */
  lemma DataReportedIffFails(data: EventData, p: DateParsers, k: int)
    requires 0 <= k < |DataCheckOrder|
    ensures DataMessage(DataCheckOrder[k]) in DataErrors(data, p) <==> DataFails(data, p, DataCheckOrder[k])
  {
    DataErrorsAreFailedChecks(data, p);
    var kept := Filter(DataCheckOrder, DataFailsOn(data, p));
    forall x | x in kept ensures x in DataCheckOrder {
      FilterMembership(DataCheckOrder, DataFailsOn(data, p), x);
    }
    FilterMembership(DataCheckOrder, DataFailsOn(data, p), DataCheckOrder[k]);
    MessageListedIffCheckListed(kept, k);
  }

  /** An empty error list means every check passed, and conversely. */
  lemma DataErrorsEmptyIff(data: EventData, p: DateParsers)
    ensures DataErrors(data, p) == [] <==> forall c :: c in DataCheckOrder ==> !DataFails(data, p, c)
  {
    DataErrorsAreFailedChecks(data, p);
    var kept := Filter(DataCheckOrder, DataFailsOn(data, p));
    if kept != [] {
      FilterMembership(DataCheckOrder, DataFailsOn(data, p), kept[0]);
    }
    if exists c :: c in DataCheckOrder && DataFails(data, p, c) {
      var c :| c in DataCheckOrder && DataFails(data, p, c);
      FilterMembership(DataCheckOrder, DataFailsOn(data, p), c);
    }
  }

  /**
   * A date made only of spaces is reported twice: it is blank, and it is not
   * empty, so the format check runs on it too.
   */
  lemma BlankDateReportedTwice(data: EventData, p: DateParsers, d: string)
    requires data.date == Some(d) && d != "" && AllSpace(d) && p.fromIso(d) == None
    ensures "Date is required" in DataErrors(data, p) && "Invalid date format" in DataErrors(data, p)
  {
    DateRequiredMessage();
    assert 'Z' !in d by {
      forall i | 0 <= i < |d| ensures d[i] != 'Z' {
        assert IsSpace(d[i]);
      }
    }
    ReplaceZIdentity(d);
    assert DataCheckOrder[1] == Required("date") && DataCheckOrder[3] == InvalidDate;
    DataReportedIffFails(data, p, 1);
    DataReportedIffFails(data, p, 3);
  }

  /**
   * `validate_event_data`: the required fields are checked in a loop, then the
   * date format and the three lengths.
   */
  method ValidateEventData(data: EventData, p: DateParsers) returns (errors: seq<string>)
    ensures errors == DataErrors(data, p)
  {
    errors := CheckRequired(data, p);
    var rest := CheckFormatAndLengths(data, p);
    errors := errors + rest;
  }

  /** The loop over the required fields. */
  method CheckRequired(data: EventData, p: DateParsers) returns (errors: seq<string>)
    ensures errors == FlatMap(RequiredChecks, DataReportOn(data, p))
  {
    errors := [];
    var requiredFields := RequiredFields;
    for i := 0 to |requiredFields|
      invariant errors == FlatMap(RequiredChecks[..i], DataReportOn(data, p))
    {
      var field := requiredFields[i];
      assert RequiredChecks[..i + 1][..i] == RequiredChecks[..i] && RequiredChecks[i] == Required(field);
      Models.BlankIffStripEmpty(Get(data, field));
      if Strip(Get(data, field)) == "" {
        errors := errors + [Title(field) + " is required"];
      }
    }
    assert RequiredChecks[..3] == RequiredChecks;
  }

  /** The date-format and length checks, which follow the required-field loop. */
  method CheckFormatAndLengths(data: EventData, p: DateParsers) returns (errors: seq<string>)
    ensures errors == FormatAndLengthErrors(data, p)
  {
    errors := [];
    var date := Field(data, "date");
    if date.Some? && date.value != "" {
      if !Models.IsoParses(p, date.value) {
        errors := errors + [DataMessage(InvalidDate)];
      }
    }
    assert errors == DataReport(data, p, InvalidDate);
    if |Get(data, "name")| > 100 {
      errors := errors + [DataMessage(NameOver100)];
    }
    assert errors == DataReport(data, p, InvalidDate) + DataReport(data, p, NameOver100);
    if |Get(data, "location")| > 200 {
      errors := errors + [DataMessage(LocationOver200)];
    }
    if |Get(data, "description")| > 1000 {
      errors := errors + [DataMessage(DescriptionOver1000)];
    }
  }
}
