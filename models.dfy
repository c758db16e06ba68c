/**
 * The database record of an event: its validation, and the conversion between
 * its tag column (one comma-joined string, possibly NULL) and the tag list of
 * its dictionary form.
 */
module Models {
  import opened Wrappers
  import opened Strings
  import opened Seqs
  import opened Dates
  import Records

  /** The checks of `validate`, each with the message it appends when it fails. */
  datatype Check = NameMissing | DateMissing | DateUnparsable | LocationMissing
                 | NameTooLong | LocationTooLong | DescriptionTooLong

  function Message(c: Check): string {
    match c
    case NameMissing => "Event name is required"
    case DateMissing => "Event date is required"
    case DateUnparsable => "Invalid date format"
    case LocationMissing => "Event location is required"
    case NameTooLong => "Event name must be less than 200 characters"
    case LocationTooLong => "Location must be less than 200 characters"
    case DescriptionTooLong => "Description must be less than 1000 characters"
  }

  /** The presence checks, in order. */
  const PresenceChecks := [NameMissing, DateMissing, DateUnparsable, LocationMissing]

  /** The length checks, in order. */
  const LengthChecks := [NameTooLong, LocationTooLong, DescriptionTooLong]

  /** The checks in the order `validate` runs them. */
  const CheckOrder := PresenceChecks + LengthChecks

  /**
   * `not s or not s.strip()` for a string value: every character is
   * whitespace (BlankIffStripEmpty).
   */
  predicate Blank(s: string) {
    AllSpace(s)
  }

  lemma BlankIffStripEmpty(s: string)
    ensures Blank(s) <==> Strip(s) == ""
  {
  }

  /** `datetime.fromisoformat(s.replace('Z', '+00:00'))` does not raise. */
  predicate IsoParses(p: DateParsers, s: string) {
    p.fromIso(ReplaceZ(s)).Some?
  }

  /** The fields `validate` looks at. */
  datatype Fields = Fields(name: string, date: string, location: string, description: Option<string>)

  /** Whether check `c` fails on `f`, one line per check. */
  predicate Fails(f: Fields, p: DateParsers, c: Check) {
    match c
    case NameMissing => Blank(f.name)
    case DateMissing => Blank(f.date)
    case DateUnparsable => !Blank(f.date) && !IsoParses(p, f.date)
    case LocationMissing => Blank(f.location)
    case NameTooLong => |f.name| > 200
    case LocationTooLong => |f.location| > 200
    case DescriptionTooLong => f.description.Some? && |f.description.value| > 1000
  }

  function FailsOn(f: Fields, p: DateParsers): Check -> bool {
    c => Fails(f, p, c)
  }

  /** What check `c` appends: its message when it fails, nothing otherwise. */
  function Report(f: Fields, p: DateParsers, c: Check): seq<string> {
    if Fails(f, p, c) then [Message(c)] else []
  }

  /** What the presence checks of `validate` append: name, date (missing or unparsable), location. */
  function PresenceErrors(f: Fields, p: DateParsers): seq<string> {
    Report(f, p, NameMissing) + Report(f, p, DateMissing) + Report(f, p, DateUnparsable)
    + Report(f, p, LocationMissing)
  }

  /** What the length checks of `validate` append: name, location, description. */
  function LengthErrors(f: Fields, p: DateParsers): seq<string> {
    Report(f, p, NameTooLong) + Report(f, p, LocationTooLong) + Report(f, p, DescriptionTooLong)
  }

  /** The error list `validate` returns. */
  function ValidationErrors(f: Fields, p: DateParsers): seq<string> {
    PresenceErrors(f, p) + LengthErrors(f, p)
  }

  function ReportOn(f: Fields, p: DateParsers): Check -> seq<string> {
    c => Report(f, p, c)
  }

  lemma PresenceErrorsAreReports(f: Fields, p: DateParsers)
    ensures PresenceErrors(f, p) == FlatMap(PresenceChecks, ReportOn(f, p))
  {
    var cs, r := PresenceChecks, ReportOn(f, p);
    assert cs[..1][..0] == [] && cs[..2][..1] == cs[..1] && cs[..3][..2] == cs[..2] && cs[..4] == cs;
    assert cs[..4][..3] == cs[..3];
    assert FlatMap([], r) == [];
    var r1 := FlatMap(cs[..1], r);
    assert r1 == Report(f, p, NameMissing);
    var r2 := FlatMap(cs[..2], r);
    assert r2 == r1 + Report(f, p, DateMissing);
    var r3 := FlatMap(cs[..3], r);
    assert r3 == r2 + Report(f, p, DateUnparsable);
  }

  lemma LengthErrorsAreReports(f: Fields, p: DateParsers)
    ensures LengthErrors(f, p) == FlatMap(LengthChecks, ReportOn(f, p))
  {
    var cs, r := LengthChecks, ReportOn(f, p);
    assert cs[..1][..0] == [] && cs[..2][..1] == cs[..1] && cs[..3] == cs && cs[..3][..2] == cs[..2];
    assert FlatMap([], r) == [];
    var r1 := FlatMap(cs[..1], r);
    assert r1 == Report(f, p, NameTooLong);
    var r2 := FlatMap(cs[..2], r);
    assert r2 == r1 + Report(f, p, LocationTooLong);
  }

  /**
   * The errors are the messages of exactly the failing checks, in check order.
   * Together with MessagesAreDistinct: a message appears once when its check
   * fails and not at all otherwise (ReportedIffFails).
   */
  lemma ValidationErrorsAreFailedChecks(f: Fields, p: DateParsers)
    ensures ValidationErrors(f, p) == Map(Filter(CheckOrder, FailsOn(f, p)), Message)
  {
    PresenceErrorsAreReports(f, p);
    LengthErrorsAreReports(f, p);
    FlatMapAppend(PresenceChecks, LengthChecks, ReportOn(f, p));
    FlatMapOfGuarded(CheckOrder, ReportOn(f, p), FailsOn(f, p), Message);
  }

  /** Each message is in the error list exactly when its check fails. */
  lemma ReportedIffFails(f: Fields, p: DateParsers, c: Check)
    ensures Message(c) in ValidationErrors(f, p) <==> Fails(f, p, c)
  {
    ValidationErrorsAreFailedChecks(f, p);
    var kept := Filter(CheckOrder, FailsOn(f, p));
    FilterMembership(CheckOrder, FailsOn(f, p), c);
    if Message(c) in Map(kept, Message) {
      var i :| 0 <= i < |kept| && Map(kept, Message)[i] == Message(c);
      if kept[i] != c { MessagesAreDistinct(kept[i], c); }
    }
    if Fails(f, p, c) {
      var i :| 0 <= i < |kept| && kept[i] == c;
      assert Map(kept, Message)[i] == Message(c);
    }
  }

  /** Different checks have different messages. */
  lemma MessagesAreDistinct(c: Check, d: Check)
    requires c != d
    ensures Message(c) != Message(d)
  {
    MessageHasLength(c);
    MessageHasLength(d);
    if {c, d} == {NameMissing, DateMissing} {
      NameAndDateMessagesDiffer();
    } else {
      assert MessageLength(c) != MessageLength(d);
    }
  }

  function MessageLength(c: Check): nat {
    match c
    case NameMissing => 22
    case DateMissing => 22
    case DateUnparsable => 19
    case LocationMissing => 26
    case NameTooLong => 43
    case LocationTooLong => 41
    case DescriptionTooLong => 45
  }

  lemma MessageHasLength(c: Check)
    ensures |Message(c)| == MessageLength(c)
  {
  }

  lemma NameAndDateMessagesDiffer()
    ensures Message(NameMissing) != Message(DateMissing)
  {
    assert Message(NameMissing)[6] != Message(DateMissing)[6];
  }

  /** The combined condition under which `validate` reports nothing. */
  predicate FieldsValid(f: Fields, p: DateParsers) {
    !Blank(f.name) && !Blank(f.date) && IsoParses(p, f.date) && !Blank(f.location) &&
    |f.name| <= 200 && |f.location| <= 200 && (f.description.None? || |f.description.value| <= 1000)
  }

  lemma ValidationErrorsEmptyIff(f: Fields, p: DateParsers)
    ensures ValidationErrors(f, p) == [] <==> FieldsValid(f, p)
  {
    ValidationErrorsAreFailedChecks(f, p);
    var kept := Filter(CheckOrder, FailsOn(f, p));
    if kept != [] {
      FilterMembership(CheckOrder, FailsOn(f, p), kept[0]);
    }
    if !FieldsValid(f, p) {
      var c := FailingCheck(f, p);
      FilterMembership(CheckOrder, FailsOn(f, p), c);
    }
  }

  /** A check that fails on fields that are not valid. */
  lemma FailingCheck(f: Fields, p: DateParsers) returns (c: Check)
    requires !FieldsValid(f, p)
    ensures c in CheckOrder && Fails(f, p, c)
  {
    assert CheckOrder == [NameMissing, DateMissing, DateUnparsable, LocationMissing,
                          NameTooLong, LocationTooLong, DescriptionTooLong];
    if Blank(f.name) { c := NameMissing; }
    else if Blank(f.date) { c := DateMissing; }
    else if !IsoParses(p, f.date) { c := DateUnparsable; }
    else if Blank(f.location) { c := LocationMissing; }
    else if |f.name| > 200 { c := NameTooLong; }
    else if |f.location| > 200 { c := LocationTooLong; }
    else { c := DescriptionTooLong; }
  }

  // ---------------------------------------------------------------- tag column

  /** `','.join(tags)`: the tag column written from a list. */
  function JoinTags(tags: seq<string>): (column: string)
    ensures column == "" <==> tags == [] || tags == [""]
  {
    JoinLength(",", tags);
    Join(",", tags)
  }

  /** `tags.split(',') if tags else []`: the tag list read from the column. */
  function SplitTags(column: Option<string>): (tags: seq<string>)
    ensures column.None? || column == Some("") ==> tags == []
    ensures forall i :: 0 <= i < |tags| ==> ',' !in tags[i]
  {
    if column.None? || column.value == "" then [] else Split(column.value, ',')
  }

  lemma {:induction false} JoinLength(sep: string, xs: seq<string>)
    requires |sep| == 1
    ensures |Join(sep, xs)| >= |xs| - 1
    decreases |xs|
  {
    if |xs| > 1 { JoinLength(sep, xs[1..]); }
  }

  /**
   * Writing a tag list to the column and reading it back gives the list again
   * exactly when no tag holds a comma and the list is not `['']`.
   */
  lemma TagsRoundTrip(tags: seq<string>)
    ensures SplitTags(Some(JoinTags(tags))) == tags
            <==> tags != [""] && forall i :: 0 <= i < |tags| ==> ',' !in tags[i]
  {
    var column := JoinTags(tags);
    if tags != [] && tags != [""] && forall i :: 0 <= i < |tags| ==> ',' !in tags[i] {
      JoinLength(",", tags);
      assert column != "";
      SplitJoin(tags, ',');
    }
  }

  /** Reading the column as a list and writing the list back gives the column again. */
  lemma ColumnRoundTrip(column: string)
    ensures JoinTags(SplitTags(Some(column))) == column
  {
    if column != "" { JoinSplit(column, ','); }
  }

  // ---------------------------------------------------------------- the record

  /** The dictionary `to_dict` produces. Timestamps are kept as numbers. */
  datatype EventDict = EventDict(
    id: Option<int>, name: string, date: string, location: string,
    description: Option<string>, tags: seq<string>,
    createdAt: Option<int>, updatedAt: Option<int>, userId: int)

  /** A row of the events table. `None` stands for NULL, or for a value not yet assigned. */
  class Event {
    var id: Option<int>
    var name: string
    var date: string
    var location: string
    var description: Option<string>
    var tags: Option<string>
    var createdAt: Option<int>
    var updatedAt: Option<int>
    var userId: int

    /** A new, not yet stored row: no id and no timestamps. */
    constructor (name: string, date: string, location: string, description: Option<string>,
                 tags: Option<string>, userId: int)
      ensures this.name == name && this.date == date && this.location == location
      ensures this.description == description && this.tags == tags && this.userId == userId
      ensures id.None? && createdAt.None? && updatedAt.None?
    {
      this.id := None;
      this.name := name;
      this.date := date;
      this.location := location;
      this.description := description;
      this.tags := tags;
      this.createdAt := None;
      this.updatedAt := None;
      this.userId := userId;
    }

    /**
     * `Event.from_dict(data, user_id)`. The four keys are read with `data[key]`, so a
     * missing one raises KeyError, modelled as `None`; the tags default to `[]`.
     */
    static method FromDict(data: Records.EventData, userId: int) returns (r: Option<Event>)
      ensures r.None? <==> data.name.None? || data.date.None? || data.location.None? || data.description.None?
      ensures r.Some? ==> fresh(r.value)
      ensures r.Some? ==> r.value.name == data.name.value && r.value.date == data.date.value &&
                          r.value.location == data.location.value &&
                          r.value.description == data.description && r.value.userId == userId
      ensures r.Some? ==> r.value.tags == Some(JoinTags(data.tags.GetOr([])))
      ensures r.Some? ==> r.value.id.None? && r.value.createdAt.None? && r.value.updatedAt.None?
    {
      if data.name.None? || data.date.None? || data.location.None? || data.description.None? {
        return None;
      }
      var e := new Event(data.name.value, data.date.value, data.location.value, data.description,
                         Some(JoinTags(data.tags.GetOr([]))), userId);
      return Some(e);
    }

    /** `to_dict()`: the tag column becomes a list, and an empty or NULL column becomes `[]`. */
    function ToDict(): (d: EventDict)
      reads this
      ensures d.tags == [] <==> tags.None? || tags == Some("")
      ensures forall i :: 0 <= i < |d.tags| ==> ',' !in d.tags[i]
      ensures tags.Some? ==> JoinTags(d.tags) == tags.value
      ensures d.id == id && d.name == name && d.date == date && d.location == location
      ensures d.description == description && d.userId == userId
      ensures d.createdAt == createdAt && d.updatedAt == updatedAt
    {
      ColumnRoundTrip(tags.GetOr(""));
      EventDict(id, name, date, location, description, SplitTags(tags), createdAt, updatedAt, userId)
    }

    /**
     * `update_from_dict(data)`: each of name, date, location and description is replaced
     * only when its key is present; the tags only when the given list is non-empty;
     * `updated_at` is always set (to `now`, the clock's reading).
     */
    method UpdateFromDict(data: Records.EventData, now: int)
      modifies this
      ensures name == data.name.GetOr(old(name)) && date == data.date.GetOr(old(date))
      ensures location == data.location.GetOr(old(location))
      ensures description == (if data.description.Some? then data.description else old(description))
      ensures tags == (if data.tags.Some? && data.tags.value != [] then Some(JoinTags(data.tags.value))
                       else old(tags))
      ensures updatedAt == Some(now)
      ensures id == old(id) && userId == old(userId) && createdAt == old(createdAt)
    {
      name := data.name.GetOr(name);
      date := data.date.GetOr(date);
      location := data.location.GetOr(location);
      description := if data.description.Some? then data.description else description;
      tags := if data.tags.Some? && data.tags.value != [] then Some(JoinTags(data.tags.value)) else tags;
      updatedAt := Some(now);
    }

    /**
     * `validate()`: the presence checks, then the length checks, each appending
     * its message when it fails.
     */
    method Validate(p: DateParsers) returns (errors: seq<string>)
      ensures errors == ValidationErrors(Fields(name, date, location, description), p)
    {
      errors := CheckPresence(p);
      var lengthErrors := CheckLengths(p);
      errors := errors + lengthErrors;
    }

    /** The first part of `validate()`: name, date and location must not be blank. */
    method CheckPresence(p: DateParsers) returns (errors: seq<string>)
      ensures errors == PresenceErrors(Fields(name, date, location, description), p)
    {
      ghost var f := Fields(name, date, location, description);
      errors := [];
      if Blank(name) {
        errors := errors + [Message(NameMissing)];
      }
      assert errors == Report(f, p, NameMissing);
      if Blank(date) {
        errors := errors + [Message(DateMissing)];
      } else if !IsoParses(p, date) {
        errors := errors + [Message(DateUnparsable)];
      }
      assert errors == Report(f, p, NameMissing) + Report(f, p, DateMissing) + Report(f, p, DateUnparsable);
      if Blank(location) {
        errors := errors + [Message(LocationMissing)];
      }
    }

    /** The second part of `validate()`: the length limits. */
    method CheckLengths(p: DateParsers) returns (errors: seq<string>)
      ensures errors == LengthErrors(Fields(name, date, location, description), p)
    {
      ghost var f := Fields(name, date, location, description);
      errors := [];
      if |name| > 200 {
        errors := errors + [Message(NameTooLong)];
      }
      assert errors == Report(f, p, NameTooLong);
      if |location| > 200 {
        errors := errors + [Message(LocationTooLong)];
      }
      assert errors == Report(f, p, NameTooLong) + Report(f, p, LocationTooLong);
      if description.Some? && description.value != "" && |description.value| > 1000 {
        errors := errors + [Message(DescriptionTooLong)];
      }
    }
  }
}
