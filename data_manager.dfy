/**
 * The in-memory event store: a dictionary from event id to event, changed in
 * place by create, update and delete, and read by the query and statistics
 * operations. Persistence to the JSON file is not part of this model.
 */
module DataManagement {
  import opened Wrappers
  import opened Strings
  import opened Seqs
  import opened Sorting
  import opened Dates
  import opened Records
  import Models
  import Utils

  const DuplicateName := "An event with this name already exists"
  const NotFound := "Event not found"

  // ---------------------------------------------------------------- the store as a value

  /** What the store's validation looks at: a stored description is never absent. */
  function FieldsOf(e: Event): Models.Fields {
    Models.Fields(e.name, e.date, e.location, Some(e.description))
  }

  function ValidationErrors(e: Event, p: DateParsers): seq<string> {
    Models.ValidationErrors(FieldsOf(e), p)
  }

  /**
   * The event `create_event` builds: each field read with `get` and a default,
   * the id and both timestamps supplied by the caller (a UUID and the clock).
   */
  function NewEvent(id: string, data: EventData, now: int): (e: Event)
    ensures e.id == id && e.createdAt == now && e.updatedAt == now
    ensures FieldsOf(e) == RequestFields(data) && e.tags == data.tags.GetOr([])
  {
    Event(id, Utils.Get(data, "name"), Utils.Get(data, "date"), Utils.Get(data, "location"),
          Utils.Get(data, "description"), data.tags.GetOr([]), now, now)
  }

  /** `event.update(**fields)` with the fields present in the request. */
  function Updated(e: Event, data: EventData): (u: Event)
    ensures u.id == e.id && u.createdAt == e.createdAt && u.updatedAt == e.updatedAt
    ensures data.name.Some? ==> u.name == data.name.value
    ensures data.date.Some? ==> u.date == data.date.value
    ensures data.location.Some? ==> u.location == data.location.value
    ensures data.description.Some? ==> u.description == data.description.value
    ensures data.tags.Some? ==> u.tags == data.tags.value
  {
    e.(name := data.name.GetOr(e.name), date := data.date.GetOr(e.date),
       location := data.location.GetOr(e.location), description := data.description.GetOr(e.description),
       tags := data.tags.GetOr(e.tags))
  }

  /** Some stored event has `name`, ignoring case. */
  predicate NameTaken(events: map<string, Event>, name: string) {
    exists id :: id in events && Lower(events[id].name) == Lower(name)
  }

  /** Some stored event other than `self` has `name`, ignoring case. */
  predicate NameTakenByOther(events: map<string, Event>, self: string, name: string) {
    exists id :: id in events && id != self && Lower(events[id].name) == Lower(name)
  }

  /** No two stored events have the same name, ignoring case. */
  predicate NamesDistinct(events: map<string, Event>) {
    forall a, b :: a in events && b in events && a != b ==> Lower(events[a].name) != Lower(events[b].name)
  }

  /** The fields of the event `create_event` builds from `data`. */
  function RequestFields(data: EventData): Models.Fields {
    Models.Fields(Utils.Get(data, "name"), Utils.Get(data, "date"), Utils.Get(data, "location"),
                  Some(Utils.Get(data, "description")))
  }

  /** The errors `create_event` returns. */
  function CreateErrors(events: map<string, Event>, data: EventData, p: DateParsers): (errors: seq<string>)
    ensures errors == [] <==> Models.ValidationErrors(RequestFields(data), p) == [] && !NameTaken(events, Utils.Get(data, "name"))
    ensures errors == [] || errors == [DuplicateName] || errors == Models.ValidationErrors(RequestFields(data), p)
  {
    var errors := Models.ValidationErrors(RequestFields(data), p);
    if errors != [] then errors
    else if NameTaken(events, Utils.Get(data, "name")) then [DuplicateName]
    else []
  }

  /** The store after `create_event`. */
  function Created(events: map<string, Event>, data: EventData, id: string, now: int, p: DateParsers)
    : (after: map<string, Event>)
    ensures after.Keys == if CreateErrors(events, data, p) == [] then events.Keys + {id} else events.Keys
    ensures forall k :: k in after && k != id ==> k in events && after[k] == events[k]
    ensures id in after && CreateErrors(events, data, p) == [] ==> after[id] == NewEvent(id, data, now)
  {
    if CreateErrors(events, data, p) == [] then events[id := NewEvent(id, data, now)] else events
  }

  /** The store after `update_event`: the stored event is changed before it is validated. */
  function Applied(events: map<string, Event>, id: string, data: EventData): (after: map<string, Event>)
    ensures after.Keys == events.Keys
    ensures forall k :: k in events && k != id ==> after[k] == events[k]
    ensures id in events ==> after[id] == Updated(events[id], data)
  {
    if id in events then events[id := Updated(events[id], data)] else events
  }

  /** The errors `update_event` returns. */
  function UpdateErrors(events: map<string, Event>, id: string, data: EventData, p: DateParsers): (errors: seq<string>)
    ensures id !in events ==> errors == [NotFound]
    ensures id in events ==>
              (errors == [] <==> ValidationErrors(Updated(events[id], data), p) == [] &&
                                 !NameTakenByOther(events, id, Updated(events[id], data).name))
  {
    if id !in events then [NotFound]
    else
      var e := Updated(events[id], data);
      var errors := ValidationErrors(e, p);
      if errors != [] then errors
      else if NameTakenByOther(events, id, e.name) then [DuplicateName]
      else []
  }

  /** `self.events.get(id)`. */
  function Lookup(events: map<string, Event>, id: string): (r: Option<Event>) {
    if id in events then Some(events[id]) else None
  }

  /** The stored events in the order of their ids. */
  function ValuesOf(ids: seq<string>, events: map<string, Event>): (r: seq<Event>)
    requires forall i :: 0 <= i < |ids| ==> ids[i] in events
    ensures |r| == |ids| && forall i :: 0 <= i < |ids| ==> r[i] == events[ids[i]]
  {
    if ids == [] then [] else [events[ids[0]]] + ValuesOf(ids[1..], events)
  }

  /** `get_all_events`: search, then tag filter, then sort; an absent or empty parameter skips its step. */
  function Query(values: seq<Event>, search: Option<string>, sortBy: string, sortOrder: string,
                 tagFilter: Option<string>, p: DateParsers): (r: seq<Event>)
    ensures |r| <= |values| && forall e :: e in r ==> e in values
  {
    var searched := Utils.SearchResult(values, search.GetOr(""));
    var filtered := Utils.FilterEvents(searched, tagFilter.GetOr(""));
    SubsequenceElements(filtered, searched);
    SubsequenceElements(searched, values);
    var sorted := Utils.SortEvents(filtered, sortBy, sortOrder, p);
    PermutationMembers(filtered, sorted);
    sorted
  }

  /** The tags of a list of events. */
  function TagsOf(values: seq<Event>): set<string>
    decreases |values|
  {
    if values == [] then {} else TagsOf(values[..|values| - 1]) + Elements(values[|values| - 1].tags)
  }

  /** Every tag of every stored event. */
  function TagUnion(events: map<string, Event>): set<string> {
    set id, t | id in events && t in events[id].tags :: t
  }

  /** `get_stats()`. */
  datatype Stats = Stats(totalEvents: nat, uniqueTags: nat, allTags: seq<string>)

  /** Strictly increasing in Python's string order. */
  predicate Increasing(s: seq<string>) {
    forall i, j :: 0 <= i < j < |s| ==> LexLt(s[i], s[j])
  }

  function TextKey(t: string): SortKey { Text(t) }

  // ---------------------------------------------------------------- the store

  class DataManager {
    /** The ids in the order they were first stored, which is the dictionary's order. */
    var ids: seq<string>
    var events: map<string, Event>

    /** Every key is listed once, and each event is stored under its own id. */
    ghost predicate Valid()
      reads this
    {
      Distinct(ids) && (forall id :: id in events <==> id in ids) &&
      (forall id :: id in events ==> events[id].id == id)
    }

    constructor ()
      ensures Valid() && events == map[] && ids == []
    {
      ids := [];
      events := map[];
    }

    /** `list(self.events.values())`. */
    function Values(): (r: seq<Event>)
      reads this
      requires Valid()
      ensures |r| == |ids| && forall i :: 0 <= i < |ids| ==> r[i] == events[ids[i]]
    {
      ValuesOf(ids, events)
    }

    /** `get_event(id)`. */
    function GetEvent(id: string): (r: Option<Event>)
      reads this
      ensures r.Some? <==> id in events
      ensures r.Some? ==> r.value == events[id]
    {
      Lookup(events, id)
    }

    /**
     * `create_event(data)`: validate, reject a name already stored (ignoring case),
     * otherwise store the new event under `newId`.
     */
    method CreateEvent(data: EventData, newId: string, now: int, p: DateParsers)
      returns (event: Option<Event>, errors: seq<string>)
      requires Valid()
      modifies this
      ensures Valid()
      ensures errors == CreateErrors(old(events), data, p)
      ensures event == if errors == [] then Some(NewEvent(newId, data, now)) else None
      ensures events == Created(old(events), data, newId, now, p)
      ensures ids == if errors == [] && newId !in old(events) then old(ids) + [newId] else old(ids)
    {
      var e := NewEvent(newId, data, now);
      assert FieldsOf(e) == RequestFields(data);
      errors := ValidationErrors(e, p);
      if errors != [] {
        return None, errors;
      }
      var taken := HasName(e.name);
      if taken {
        return None, [DuplicateName];
      }
      events := events[newId := e];
      if newId !in ids {
        ids := ids + [newId];
      }
      return Some(e), [];
    }

    /** The duplicate-name loop of `create_event`. */
    method HasName(name: string) returns (taken: bool)
      requires Valid()
      ensures taken == NameTaken(events, name)
    {
      var values := Values();
      for i := 0 to |values|
        invariant forall j :: 0 <= j < i ==> Lower(values[j].name) != Lower(name)
      {
        if Lower(values[i].name) == Lower(name) {
          assert ids[i] in events;
          return true;
        }
      }
      assert !NameTaken(events, name) by {
        forall id | id in events ensures Lower(events[id].name) != Lower(name) {
          var j :| 0 <= j < |ids| && ids[j] == id;
          assert values[j] == events[id];
        }
      }
      return false;
    }

    /**
     * `update_event(id, data)`: an unknown id is reported; otherwise the stored
     * event is updated in place and then validated and checked for a duplicate
     * name among the other events. A rejected update stays applied.
     */
    method UpdateEvent(id: string, data: EventData, p: DateParsers)
      returns (event: Option<Event>, errors: seq<string>)
      requires Valid()
      modifies this
      ensures Valid() && ids == old(ids)
      ensures errors == UpdateErrors(old(events), id, data, p)
      ensures event == if id in old(events) && errors == [] then Some(Updated(old(events)[id], data)) else None
      ensures events == Applied(old(events), id, data)
    {
      if id !in events {
        return None, [NotFound];
      }
      ghost var before := events;
      var e := Updated(events[id], data);
      events := events[id := e];
      errors := ValidationErrors(e, p);
      if errors != [] {
        return None, errors;
      }
      var taken := HasNameOtherThan(id, e.name);
      OthersUnchanged(before, id, e, e.name);
      if taken {
        return None, [DuplicateName];
      }
      return Some(e), [];
    }

    /** The duplicate-name loop of `update_event`, which skips the event being updated. */
    method HasNameOtherThan(self: string, name: string) returns (taken: bool)
      requires Valid()
      ensures taken == NameTakenByOther(events, self, name)
    {
      for i := 0 to |ids|
        invariant forall j :: 0 <= j < i && ids[j] != self ==> Lower(events[ids[j]].name) != Lower(name)
      {
        var existingId := ids[i];
        assert existingId in events;
        if existingId != self && Lower(events[existingId].name) == Lower(name) {
          return true;
        }
      }
      assert !NameTakenByOther(events, self, name) by {
        forall other | other in events && other != self ensures Lower(events[other].name) != Lower(name) {
          var j :| 0 <= j < |ids| && ids[j] == other;
        }
      }
      return false;
    }

    /** `delete_event(id)`: removes the entry and says whether there was one. */
    method DeleteEvent(id: string) returns (deleted: bool)
      requires Valid()
      modifies this
      ensures Valid()
      ensures deleted <==> id in old(events)
      ensures events == old(events) - {id}
      ensures ids == Filter(old(ids), (x: string) => x != id)
    {
      if id !in events {
        assert events - {id} == events;
        FilterAll(ids, (x: string) => x != id);
        return false;
      }
      var remaining := Filter(ids, (x: string) => x != id);
      FilterKeepsDistinct(ids, (x: string) => x != id);
      forall x ensures x in remaining <==> x in ids && x != id {
        FilterMembership(ids, (x: string) => x != id, x);
      }
      events := events - {id};
      ids := remaining;
      return true;
    }

    /** `get_all_events(search, sort_by, sort_order, tag_filter)`. */
    method GetAllEvents(search: Option<string>, sortBy: string, sortOrder: string,
                        tagFilter: Option<string>, p: DateParsers) returns (r: seq<Event>)
      requires Valid()
      ensures r == Query(Values(), search, sortBy, sortOrder, tagFilter, p)
    {
      var eventsList := Values();
      if search.Some? && search.value != "" {
        eventsList := Utils.SearchEvents(eventsList, search.value);
      }
      if tagFilter.Some? && tagFilter.value != "" {
        eventsList := Utils.FilterEvents(eventsList, tagFilter.value);
      }
      r := Utils.SortEvents(eventsList, sortBy, sortOrder, p);
    }

    /** `get_stats()`: the number of events and the sorted set of all their tags. */
    method GetStats() returns (stats: Stats)
      requires Valid()
      ensures stats.totalEvents == |events|
      ensures Elements(stats.allTags) == TagUnion(events)
      ensures Increasing(stats.allTags)
      ensures stats.uniqueTags == |stats.allTags| == |TagUnion(events)|
    {
      var values := Values();
      var allTags: set<string> := {};
      for i := 0 to |values|
        invariant allTags == TagsOf(values[..i])
      {
        assert values[..i + 1][..i] == values[..i];
        allTags := allTags + Elements(values[i].tags);
      }
      assert values[..|values|] == values;
      TagsOfStored(ids, events);
      var sorted := SortedList(allTags);
      DistinctCardinality(sorted);
      stats := Stats(|events|, |allTags|, sorted);
    }
  }

  /** Replacing the entry of `self` does not change which other events hold a name. */
  lemma OthersUnchanged(events: map<string, Event>, self: string, e: Event, name: string)
    ensures NameTakenByOther(events[self := e], self, name) == NameTakenByOther(events, self, name)
  {
    if NameTakenByOther(events[self := e], self, name) {
      var id :| id in events[self := e] && id != self && Lower(events[self := e][id].name) == Lower(name);
      assert id in events;
    }
    if NameTakenByOther(events, self, name) {
      var id :| id in events && id != self && Lower(events[id].name) == Lower(name);
      assert events[self := e][id] == events[id];
    }
  }

  /** `sorted(list(s))` for a set of strings. */
  method SortedList(s: set<string>) returns (r: seq<string>)
    ensures Elements(r) == s && Distinct(r) && Increasing(r)
  {
    var list := ListOf(s);
    r := SortBy(list, TextKey, false);
    PermutationKeepsElements(list, r);
    SortedDistinctIncreasing(r);
  }

  /** `list(s)`: the elements of a set, each once, in an order the set chooses. */
  method ListOf(s: set<string>) returns (list: seq<string>)
    ensures Elements(list) == s && Distinct(list)
  {
    var rest := s;
    list := [];
    while rest != {}
      invariant forall y :: y in s <==> y in list || y in rest
      invariant forall y :: y in list ==> y !in rest
      invariant Distinct(list)
      decreases |rest|
    {
      var x :| x in rest;
      list := list + [x];
      rest := rest - {x};
    }
    assert Elements(list) == s;
  }

  lemma SortedDistinctIncreasing(s: seq<string>)
    requires Sorted(s, TextKey, false) && Distinct(s)
    ensures Increasing(s)
  {
    forall i, j | 0 <= i < j < |s| ensures LexLt(s[i], s[j]) {
      assert !KeyLt(TextKey(s[j]), TextKey(s[i]));
      LexLtTotal(s[i], s[j]);
    }
  }

  /** The tags collected from the stored events are exactly the tags of the store. */
  lemma TagsOfStored(ids: seq<string>, events: map<string, Event>)
    requires forall id :: id in events <==> id in ids
    ensures TagsOf(ValuesOf(ids, events)) == TagUnion(events)
  {
    var vs := ValuesOf(ids, events);
    forall t ensures t in TagsOf(vs) <==> t in TagUnion(events) {
      TagsOfMembership(vs, t);
      if t in TagUnion(events) {
        var id :| id in events && t in events[id].tags;
        var i :| 0 <= i < |ids| && ids[i] == id;
        assert t in vs[i].tags;
      }
    }
  }

  /** A tag is collected exactly when some event of the list carries it. */
  lemma {:induction false} TagsOfMembership(values: seq<Event>, t: string)
    ensures t in TagsOf(values) <==> exists i :: 0 <= i < |values| && t in values[i].tags
    decreases |values|
  {
    if values != [] {
      var init := values[..|values| - 1];
      TagsOfMembership(init, t);
      if exists i :: 0 <= i < |init| && t in init[i].tags {
        var i :| 0 <= i < |init| && t in init[i].tags;
        assert values[i] == init[i];
      }
      if exists i :: 0 <= i < |values| && t in values[i].tags {
        var i :| 0 <= i < |values| && t in values[i].tags;
        if i < |init| { assert init[i] == values[i]; }
      }
    }
  }

  // ---------------------------------------------------------------- properties of the store

  /** A rejected create changes nothing; a name already stored, ignoring case, is rejected. */
  lemma CreateRejections(events: map<string, Event>, data: EventData, id: string, now: int, p: DateParsers)
    ensures CreateErrors(events, data, p) != [] ==> Created(events, data, id, now, p) == events
    ensures NameTaken(events, Utils.Get(data, "name")) ==> CreateErrors(events, data, p) != []
    ensures Models.ValidationErrors(RequestFields(data), p) != [] ==>
              CreateErrors(events, data, p) == Models.ValidationErrors(RequestFields(data), p)
  {
  }

  /** A successful create adds exactly the new event under its id and changes no other entry. */
  lemma CreateAddsOne(events: map<string, Event>, data: EventData, id: string, now: int, p: DateParsers)
    requires CreateErrors(events, data, p) == [] && id !in events
    ensures var after := Created(events, data, id, now, p);
            after.Keys == events.Keys + {id} && |after| == |events| + 1 &&
            Lookup(after, id) == Some(NewEvent(id, data, now)) &&
            forall k :: k in events ==> after[k] == events[k]
  {
    var after := Created(events, data, id, now, p);
    assert after.Keys == events.Keys + {id};
    assert |after.Keys| == |events.Keys| + 1;
  }

  /** Creates keep the stored names pairwise distinct, ignoring case. */
  lemma CreateKeepsNamesDistinct(events: map<string, Event>, data: EventData, id: string, now: int, p: DateParsers)
    requires NamesDistinct(events)
    ensures NamesDistinct(Created(events, data, id, now, p))
  {
    if CreateErrors(events, data, p) == [] {
      var e := NewEvent(id, data, now);
      var after := events[id := e];
      assert !NameTaken(events, e.name);
      forall a, b | a in after && b in after && a != b
        ensures Lower(after[a].name) != Lower(after[b].name)
      {
        if a == id {
          assert !(b in events && Lower(events[b].name) == Lower(e.name));
        } else if b == id {
          assert !(a in events && Lower(events[a].name) == Lower(e.name));
        }
      }
    }
  }

  /** An unknown id is reported and changes nothing. */
  lemma UpdateUnknown(events: map<string, Event>, id: string, data: EventData, p: DateParsers)
    requires id !in events
    ensures UpdateErrors(events, id, data, p) == [NotFound] && Applied(events, id, data) == events
  {
  }

  /** Updating twice with the same data is updating once. */
  lemma UpdateIdempotent(e: Event, data: EventData)
    ensures Updated(Updated(e, data), data) == Updated(e, data)
  {
  }

  /** An update only changes the fields present in the request. */
  lemma UpdateChangesOnlyGiven(e: Event, data: EventData)
    ensures var u := Updated(e, data);
            u.id == e.id && u.createdAt == e.createdAt && u.updatedAt == e.updatedAt &&
            (data.name.None? ==> u.name == e.name) && (data.date.None? ==> u.date == e.date) &&
            (data.location.None? ==> u.location == e.location) &&
            (data.description.None? ==> u.description == e.description) &&
            (data.tags.None? ==> u.tags == e.tags) &&
            (data == EventData(None, None, None, None, None) ==> u == e)
  {
  }

  /** A successful update keeps the stored names pairwise distinct, ignoring case. */
  lemma SuccessfulUpdateKeepsNamesDistinct(events: map<string, Event>, id: string, data: EventData, p: DateParsers)
    requires NamesDistinct(events) && UpdateErrors(events, id, data, p) == []
    ensures NamesDistinct(Applied(events, id, data))
  {
    var e := Updated(events[id], data);
    var after := events[id := e];
    assert !NameTakenByOther(events, id, e.name);
    forall a, b | a in after && b in after && a != b
      ensures Lower(after[a].name) != Lower(after[b].name)
    {
      if a == id {
        assert !(b in events && b != id && Lower(events[b].name) == Lower(e.name));
      } else if b == id {
        assert !(a in events && a != id && Lower(events[a].name) == Lower(e.name));
      }
    }
  }

  /** The date of the events in the witness below. */
  const WitnessDate := "2024-01-01"

  /** The witness date parses when the ISO parser accepts it, and is not blank. */
  lemma WitnessDateIsValid(p: DateParsers)
    requires p.fromIso(WitnessDate).Some?
    ensures Models.IsoParses(p, WitnessDate) && !Models.Blank(WitnessDate)
  {
    ReplaceZIdentity(WitnessDate);
    assert !IsSpace(WitnessDate[0]);
  }

  /**
   * Because the stored event is changed before it is checked, an update rejected
   * for a duplicate name leaves two events with that name in the store.
   */
  lemma RejectedUpdateStaysApplied(p: DateParsers)
    requires p.fromIso(WitnessDate).Some?
    ensures var x := Event("a", "x", WitnessDate, "l", "", [], 0, 0);
            var y := Event("b", "y", WitnessDate, "l", "", [], 0, 0);
            var events := map["a" := x, "b" := y];
            var data := EventData(Some("X"), None, None, None, None);
            NamesDistinct(events) && UpdateErrors(events, "b", data, p) == [DuplicateName] &&
            !NamesDistinct(Applied(events, "b", data))
  {
    WitnessDateIsValid(p);
    RenameIntoDuplicate(p, WitnessDate);
  }

  /** The same for any valid date `d`: renaming "y" to "X" beside "x" is rejected but stays applied. */
  lemma RenameIntoDuplicate(p: DateParsers, d: string)
    requires Models.IsoParses(p, d) && !Models.Blank(d)
    ensures var x := Event("a", "x", d, "l", "", [], 0, 0);
            var y := Event("b", "y", d, "l", "", [], 0, 0);
            var events := map["a" := x, "b" := y];
            var data := EventData(Some("X"), None, None, None, None);
            NamesDistinct(events) && UpdateErrors(events, "b", data, p) == [DuplicateName] &&
            !NamesDistinct(Applied(events, "b", data))
  {
    var x := Event("a", "x", d, "l", "", [], 0, 0);
    var y := Event("b", "y", d, "l", "", [], 0, 0);
    var events := map["a" := x, "b" := y];
    var data := EventData(Some("X"), None, None, None, None);
    var u := Updated(y, data);
    assert u == Event("b", "X", d, "l", "", [], 0, 0);
    assert Lower("x") == "x" && Lower("y") == "y" && Lower("X") == "x";
    RenamedIsValid(p, d);
    assert NameTakenByOther(events, "b", u.name) by {
      assert "a" in events && "a" != "b";
    }
    var after := Applied(events, "b", data);
    assert after["a"].name == "x" && after["b"].name == "X";
  }

  /** The renamed event passes validation. */
  lemma RenamedIsValid(p: DateParsers, d: string)
    requires Models.IsoParses(p, d) && !Models.Blank(d)
    ensures ValidationErrors(Event("b", "X", d, "l", "", [], 0, 0), p) == []
  {
    var f := Models.Fields("X", d, "l", Some(""));
    assert !IsSpace("X"[0]) && !IsSpace("l"[0]);
    assert Models.FieldsValid(f, p);
    Models.ValidationErrorsEmptyIff(f, p);
  }

  /** Deleting keeps the stored names pairwise distinct. */
  lemma DeleteKeepsNamesDistinct(events: map<string, Event>, id: string)
    requires NamesDistinct(events)
    ensures NamesDistinct(events - {id})
  {
  }

  /** The stored events are listed once each. */
  lemma ValuesDistinct(ids: seq<string>, events: map<string, Event>)
    requires Distinct(ids) && forall i :: 0 <= i < |ids| ==> ids[i] in events && events[ids[i]].id == ids[i]
    ensures Distinct(ValuesOf(ids, events))
  {
    var vs := ValuesOf(ids, events);
    forall i, j | 0 <= i < j < |vs| ensures vs[i] != vs[j] {
      assert vs[i].id == ids[i] && vs[j].id == ids[j];
    }
  }

  /**
   * The query keeps exactly the events that match the search term (when one is
   * given) and carry the tag (when one is given), each as often as in the input.
   */
  lemma QueryMembership(values: seq<Event>, search: Option<string>, sortBy: string, sortOrder: string,
                        tagFilter: Option<string>, p: DateParsers, e: Event)
    ensures var r := Query(values, search, sortBy, sortOrder, tagFilter, p);
            var term, tag := search.GetOr(""), tagFilter.GetOr("");
            multiset(r)[e] == if (term == "" || Utils.Matches(e, Utils.NormalizeTerm(term))) &&
                                 (tag == "" || Utils.HasTag(e, Utils.NormalizeTerm(tag)))
                              then multiset(values)[e] else 0
  {
    var term, tag := search.GetOr(""), tagFilter.GetOr("");
    var searched := Utils.SearchResult(values, term);
    if term != "" {
      Utils.SearchMultiplicity(values, term, e);
    }
    if tag != "" {
      FilterCount(searched, Utils.HasTagFn(Utils.NormalizeTerm(tag)), e);
    }
  }

  /** So every listed event is stored, and none is listed twice. */
  lemma QueryListsStoredEventsOnce(values: seq<Event>, search: Option<string>, sortBy: string, sortOrder: string,
                                   tagFilter: Option<string>, p: DateParsers)
    requires Distinct(values)
    ensures var r := Query(values, search, sortBy, sortOrder, tagFilter, p);
            Distinct(r) && forall e :: e in r ==> e in values
  {
    var term, tag := search.GetOr(""), tagFilter.GetOr("");
    var searched := Utils.SearchResult(values, term);
    var tagged := Utils.FilterEvents(searched, tag);
    if term != "" {
      FilterKeepsDistinct(values, Utils.MatchesTerm(Utils.NormalizeTerm(term)));
    }
    assert Distinct(searched);
    if tag != "" {
      FilterKeepsDistinct(searched, Utils.HasTagFn(Utils.NormalizeTerm(tag)));
      forall e | e in tagged ensures e in searched {
        FilterMembership(searched, Utils.HasTagFn(Utils.NormalizeTerm(tag)), e);
      }
    }
    assert Distinct(tagged);
    var r := Query(values, search, sortBy, sortOrder, tagFilter, p);
    PermutationKeepsElements(tagged, r);
    assert forall e :: e in r ==> e in Elements(tagged);
  }
}
